/** The ELF writer pass by pass, over growing tables, index arrays and a running offset. */
module ElfWriter {
  import opened ByteCodec
  import opened ObjectModel
  import opened Wrappers
  import opened Elf
  import ElfRoundTrip

  lemma NameOffsetStable(a: seq<Bytes>, b: seq<Bytes>, k: nat)
    requires k < |a| && a <= b
    ensures NameOffset(a, k) == NameOffset(b, k)
  {
    assert a[..k] == b[..k];
  }

  /** A string table under construction. */
  class StringTable {
    var data: Bytes
    ghost var names: seq<Bytes>

    ghost predicate Valid()
      reads this
    {
      data == StrTab(names)
    }

    constructor ()
      ensures Valid() && names == []
    {
      data, names := [0], [];
    }

    method Add(name: Bytes) returns (offset: nat)
      requires Valid()
      modifies this
      ensures Valid() && names == old(names) + [name]
      ensures offset == NameOffset(names, |names| - 1)
    {
      assert (names + [name])[..|names|] == names;
      names := names + [name];
      if name == [] {
        return 0;
      }
      offset := |data|;
      data := data + name + [0];
      assert data == StrTab(names[..|names| - 1]) + (name + [0]);
    }
  }

  // ----- relocation counts -----

  ghost predicate GoodReloc(o: Object, r: Reloc) {
    r.section < |o.sections| && MapReloc(r.kind).Some?
  }

  /** Counts relocations per section and rejects those with no section or no ELF form. */
  method TallyRelocations(o: Object) returns (error: Option<Error>, counts: array<nat>)
    ensures fresh(counts) && counts.Length == |o.sections|
    ensures error.None? <==> forall r :: r in o.relocs ==> GoodReloc(o, r)
    ensures error.None? ==> forall i :: 0 <= i < |o.sections| ==> counts[i] == |RelocsOf(o.relocs, i)|
  {
    counts := new nat[|o.sections|](_ => 0);
    var r := 0;
    while r < |o.relocs|
      invariant r <= |o.relocs|
      invariant forall x :: x in o.relocs[..r] ==> GoodReloc(o, x)
      invariant forall i :: 0 <= i < |o.sections| ==> counts[i] == |RelocsOf(o.relocs[..r], i)|
    {
      var reloc := o.relocs[r];
      assert reloc in o.relocs;
      if reloc.section >= |o.sections| { return Some(InvalidSection), counts; }
      if MapReloc(reloc.kind).None? { return Some(UnsupportedRelocation), counts; }
      assert o.relocs[..r + 1][..r] == o.relocs[..r];
      counts[reloc.section] := counts[reloc.section] + 1;
      r := r + 1;
    }
    assert o.relocs[..r] == o.relocs;
    error := None;
  }

  /** One header slot more for every section that has relocations. */
  method CountRelocated(o: Object, counts: array<nat>) returns (m: nat)
    requires counts.Length == |o.sections| && forall i :: 0 <= i < |o.sections| ==> counts[i] == |RelocsOf(o.relocs, i)|
    ensures m == |Relocated(o)|
  {
    m := 0;
    for i := 0 to |o.sections|
      invariant m == |RelocatedBelow(o, i)|
    {
      if counts[i] > 0 { m := m + 1; }
    }
  }

  // ----- symbols -----

  lemma {:induction false} PickPrefix(symbols: seq<Symbol>, local: bool, i: nat, n: nat)
    requires i <= n <= |symbols|
    ensures Pick(symbols, local, i) <= Pick(symbols, local, n)
    decreases n
  {
    if i < n { PickPrefix(symbols, local, i, n - 1); }
  }

  /** The next symbol of a pass takes the next place in the order. */
  lemma NextInOrder(o: Object, local: bool, i: nat)
    requires i < |o.symbols| && o.symbols[i].binding.Local? == local
    ensures var p := |Pick(o.symbols, local, i)| + if local then 0 else |Pick(o.symbols, true, |o.symbols|)|;
            p < |o.symbols| && Order(o)[p] == i && EntryOf(o, i) == p + 1
  {
    var n := |o.symbols|;
    PickPrefix(o.symbols, local, i + 1, n);
    assert Pick(o.symbols, local, i + 1) == Pick(o.symbols, local, i) + [i];
    var q := |Pick(o.symbols, local, i)|;
    assert Pick(o.symbols, local, n)[q] == i;
    var p := q + if local then 0 else |Pick(o.symbols, true, n)|;
    assert Order(o)[p] == i;
    ElfRoundTrip.EntryIs(o, p + 1);
  }

  /** The table and the names of the first `cursor` entries. */
  ghost predicate SymtabUpTo(o: Object, names: seq<Bytes>, symtab: Bytes, cursor: nat) {
    1 <= cursor <= |o.symbols| + 1 && names == SymbolNames(o)[..cursor - 1] && symtab == EncTable(SymWidths(), SymRows(o)[..cursor])
  }

  /** Where a pass stands once it has looked at the symbols below i. */
  function Cursor(o: Object, local: bool, i: nat): nat
    requires i <= |o.symbols|
  {
    1 + |Pick(o.symbols, local, i)| + if local then 0 else |Pick(o.symbols, true, |o.symbols|)|
  }

  /** One entry: the symbol's name goes to the string table, its record to the symbol table. */
  method EmitSymbol(o: Object, i: nat, strtab: StringTable, symtab: Bytes, ghost cursor: nat) returns (grown: Bytes)
    requires strtab.Valid() && i < |o.symbols| && SymtabUpTo(o, strtab.names, symtab, cursor)
    requires cursor <= |o.symbols| && Order(o)[cursor - 1] == i
    modifies strtab
    ensures strtab.Valid() && SymtabUpTo(o, strtab.names, grown, cursor + 1)
  {
    hide SymtabUpTo, Enc, SymRow, SymWidths, Order, SymbolNames, StrTab;
    var symbol := o.symbols[i];
    var offset := strtab.Add(symbol.name);
    EntryAdded(o, i, old(strtab.names), symtab, cursor);
    grown := symtab + Enc(SymWidths(), SymRecord(o, symbol, offset));
  }

  lemma EntryAdded(o: Object, i: nat, names: seq<Bytes>, symtab: Bytes, cursor: nat)
    requires i < |o.symbols| && SymtabUpTo(o, names, symtab, cursor)
    requires cursor <= |o.symbols| && Order(o)[cursor - 1] == i
    ensures var more := names + [o.symbols[i].name];
            var row := SymRecord(o, o.symbols[i], NameOffset(more, |more| - 1));
            SymtabUpTo(o, more, symtab + Enc(SymWidths(), row), cursor + 1)
  {
    hide EncTable, Enc, StrTab, Order, NameOffset, SymRecord, SymWidths;
    var more := names + [o.symbols[i].name];
    assert more == SymbolNames(o)[..cursor];
    NameOffsetStable(more, SymbolNames(o), cursor - 1);
    TableGrows(SymWidths(), SymRows(o), cursor);
    assert SymRows(o)[cursor] == SymRow(o, cursor - 1);
  }

  /** One of the two passes: every local symbol, or every other one. */
  method EmitPass(o: Object, local: bool, strtab: StringTable, before: Bytes, entryOf: array<nat>)
    returns (error: Option<Error>, symtab: Bytes)
    requires strtab.Valid() && entryOf.Length == |o.symbols| && SymtabUpTo(o, strtab.names, before, Cursor(o, local, 0))
    modifies strtab, entryOf
    ensures error.None? <==> forall j :: 0 <= j < |o.symbols| && o.symbols[j].binding.Local? == local ==> SymbolPlaced(o, o.symbols[j])
    ensures error.None? ==> strtab.Valid() && SymtabUpTo(o, strtab.names, symtab, Cursor(o, local, |o.symbols|))
    ensures forall j :: 0 <= j < |o.symbols| && o.symbols[j].binding.Local? != local ==> entryOf[j] == old(entryOf[j])
    ensures error.None? ==>
              forall j :: 0 <= j < |o.symbols| && o.symbols[j].binding.Local? == local ==> entryOf[j] == EntryOf(o, j)
  {
    hide EntryOf, Order, SymtabUpTo;
    symtab := before;
    var cursor := Cursor(o, local, 0);
    for i := 0 to |o.symbols|
      invariant strtab.Valid() && cursor == Cursor(o, local, i) && SymtabUpTo(o, strtab.names, symtab, cursor)
      invariant forall j :: 0 <= j < i && o.symbols[j].binding.Local? == local ==>
                  SymbolPlaced(o, o.symbols[j]) && entryOf[j] == EntryOf(o, j)
      invariant forall j :: 0 <= j < |o.symbols| && o.symbols[j].binding.Local? != local ==> entryOf[j] == old(entryOf[j])
    {
      var symbol := o.symbols[i];
      if symbol.binding.Local? == local {
        if symbol.section.Some? && symbol.section.value >= |o.sections| {
          assert !SymbolPlaced(o, symbol);
          return Some(InvalidSection), symtab;
        }
        NextInOrder(o, local, i);
        symtab := EmitSymbol(o, i, strtab, symtab, cursor);
        entryOf[i] := cursor;
        cursor := cursor + 1;
      }
    }
    error := None;
  }

  /** Locals first, then the rest; firstGlobal is where the second pass starts. */
  method BuildSymtab(o: Object, strtab: StringTable)
    returns (error: Option<Error>, symtab: Bytes, entryOf: array<nat>, firstGlobal: nat)
    requires strtab.Valid() && strtab.names == []
    modifies strtab
    ensures fresh(entryOf) && entryOf.Length == |o.symbols|
    ensures error.None? <==> forall s :: s in o.symbols ==> SymbolPlaced(o, s)
    ensures error.None? ==> strtab.Valid() && strtab.names == SymbolNames(o) && firstGlobal == FirstGlobal(o)
    ensures error.None? ==> symtab == EncTable(SymWidths(), SymRows(o))
    ensures error.None? ==> forall i :: 0 <= i < |o.symbols| ==> entryOf[i] == EntryOf(o, i)
  {
    hide EntryOf, Order, EncTable, Enc, SymRow, SymtabUpTo, Cursor, SymWidths, SymbolNames, StrTab, SymRows, FirstGlobal;
    entryOf := new nat[|o.symbols|](_ => 0);
    firstGlobal := 0;
    symtab := Zeros(24);
    NullEntry(o, symtab);
    error, symtab := EmitPass(o, true, strtab, symtab, entryOf);
    if error.Some? { return; }
    PassesMeet(o);
    firstGlobal := Cursor(o, true, |o.symbols|);
    error, symtab := EmitPass(o, false, strtab, symtab, entryOf);
    if error.None? {
      SymtabDone(o, strtab.names, symtab);
      forall s | s in o.symbols ensures SymbolPlaced(o, s) {
        var i :| 0 <= i < |o.symbols| && o.symbols[i] == s;
      }
    }
  }

  lemma SymtabDone(o: Object, names: seq<Bytes>, symtab: Bytes)
    requires SymtabUpTo(o, names, symtab, |o.symbols| + 1)
    ensures names == SymbolNames(o) && symtab == EncTable(SymWidths(), SymRows(o))
  {
    hide EncTable, SymWidths, SymRow, Order;
    assert SymRows(o)[..|o.symbols| + 1] == SymRows(o);
    assert SymbolNames(o)[..|o.symbols|] == SymbolNames(o);
  }

  lemma PassesMeet(o: Object)
    ensures Cursor(o, true, |o.symbols|) == Cursor(o, false, 0) == FirstGlobal(o)
    ensures Cursor(o, false, |o.symbols|) == |o.symbols| + 1
  {
    PickSizes(o.symbols, |o.symbols|);
  }

  /** Entry 0 is all zeros. */
  lemma NullEntry(o: Object, b: Bytes)
    requires b == Zeros(24)
    ensures SymtabUpTo(o, [], b, Cursor(o, true, 0))
  {
    Widths();
    ZeroRow(o);
    EncZeros(SymWidths(), SymRows(o)[0]);
    OneRow(SymWidths(), SymRows(o)[0]);
    hide EncTable, Enc, SymWidths, SymRow, Pick, Width, Order, SymRows;
    assert SymRows(o)[..1] == [SymRows(o)[0]];
    assert SymbolNames(o)[..0] == [];
    PickNone(o);
  }

  lemma ZeroRow(o: Object)
    ensures |SymRows(o)[0]| == |SymWidths()| && forall i :: 0 <= i < |SymRows(o)[0]| ==> SymRows(o)[0][i] == 0
  {}

  lemma PickNone(o: Object)
    ensures Cursor(o, true, 0) == 1
  {}

  lemma OneRow(w: seq<nat>, row: seq<nat>)
    requires |row| == |w|
    ensures EncTable(w, [row]) == Enc(w, row)
  {
    assert [row][..0] == [];
    assert EncTable(w, [row]) == EncTable(w, []) + Enc(w, row);
  }

  lemma {:induction false} LeZero(n: nat)
    ensures Le(n, 0) == Zeros(n)
  {
    if n != 0 { LeZero(n - 1); }
  }

  lemma {:induction false} EncZeros(w: seq<nat>, v: seq<nat>)
    requires |w| == |v| && forall i :: 0 <= i < |v| ==> v[i] == 0
    ensures Enc(w, v) == Zeros(Width(w))
  {
    if w != [] {
      LeZero(w[0]);
      EncZeros(w[1..], v[1..]);
    }
  }

  // ----- section headers -----

  /** A header before the layout pass. */
  function Unplaced(o: Object, k: nat): Shdr
    requires k < HeaderCount(o)
  {
    HeaderAt(o, k).(offset := 0)
  }

  ghost predicate Counted(o: Object, counts: array<nat>)
    reads counts
  {
    counts.Length == |o.sections| && forall i :: 0 <= i < |o.sections| ==> counts[i] == |RelocsOf(o.relocs, i)|
  }

  lemma NameAdded(o: Object, k: nat)
    requires k < |Names(o)|
    ensures Names(o)[..k] + [NameAt(o, k)] == Names(o)[..k + 1]
    ensures NameOffset(Names(o)[..k + 1], k) == NameOffset(Names(o), k)
  {
    hide NameAt, StrTab;
    NameOffsetStable(Names(o)[..k + 1], Names(o), k);
  }

  /** The headers below k are filled in, and their names added. */
  ghost predicate Filled(o: Object, headers: array<Shdr>, names: seq<Bytes>, k: nat)
    reads headers
  {
    && 1 <= k <= HeaderCount(o) == headers.Length && names == Names(o)[..k - 1]
    && forall j :: 0 <= j < k ==> headers[j] == Unplaced(o, j)
  }

  /** Name and store the next header. */
  method AddHeader(o: Object, headers: array<Shdr>, shstrtab: StringTable, k: nat, name: Bytes, h: Shdr)
    requires shstrtab.Valid() && k < HeaderCount(o) && Filled(o, headers, shstrtab.names, k)
    requires name == NameAt(o, k - 1) && h.(name := Unplaced(o, k).name) == Unplaced(o, k)
    modifies headers, shstrtab
    ensures shstrtab.Valid() && Filled(o, headers, shstrtab.names, k + 1)
  {
    hide StrTab, NameAt, Names, NameOffset;
    NameAdded(o, k - 1);
    HeaderNameOffset(o, k);
    var offset := shstrtab.Add(name);
    headers[k] := h.(name := offset);
  }

  lemma HeaderNameOffset(o: Object, k: nat)
    requires 0 < k < HeaderCount(o)
    ensures Unplaced(o, k).name == NameOffset(Names(o), k - 1)
  {}

  lemma RelocatedPlace(o: Object, i: nat)
    requires i < |o.sections| && RelocsOf(o.relocs, i) != []
    ensures |RelocatedBelow(o, i)| < |Relocated(o)| && Relocated(o)[|RelocatedBelow(o, i)|] == i
  {
    RelocatedPrefix(o, i + 1, |o.sections|);
    assert RelocatedBelow(o, i + 1) == RelocatedBelow(o, i) + [i];
  }

  lemma {:induction false} RelocatedPrefix(o: Object, i: nat, n: nat)
    requires i <= n
    ensures RelocatedBelow(o, i) <= RelocatedBelow(o, n)
    decreases n
  {
    if i < n { RelocatedPrefix(o, i, n - 1); }
  }

  /** The content headers and .note.GNU-stack. */
  method AddContentHeaders(o: Object, headers: array<Shdr>, shstrtab: StringTable)
    requires shstrtab.Valid() && Filled(o, headers, shstrtab.names, 1)
    modifies headers, shstrtab
    ensures shstrtab.Valid() && Filled(o, headers, shstrtab.names, |o.sections| + 2)
  {
    hide NameOffset, Begin, Names;
    var k := 1;
    for i := 0 to |o.sections|
      invariant k == i + 1 && shstrtab.Valid() && Filled(o, headers, shstrtab.names, k)
    {
      var c := o.sections[i];
      AddHeader(o, headers, shstrtab, k, c.name,
                Shdr(0, SectionType(c.kind), SectionFlags(c.kind), 0, if c.kind.Bss? then c.Extent() else |c.data|, 0, 0, c.Align(), 0));
      k := k + 1;
    }
    AddHeader(o, headers, shstrtab, k, Ascii(".note.GNU-stack"), Shdr(0, SHT_PROGBITS, 0, 0, 0, 0, 0, 1, 0));
  }

  /** Where the .rela header of section i is, or 0. */
  function RelaIndex(o: Object, i: nat): nat {
    if RelocsOf(o.relocs, i) == [] then 0 else |o.sections| + 2 + |RelocatedBelow(o, i)|
  }

  method AddRelaHeaders(o: Object, headers: array<Shdr>, shstrtab: StringTable, counts: array<nat>, symtabIndex: nat)
    returns (relaShndx: array<nat>)
    requires shstrtab.Valid() && Filled(o, headers, shstrtab.names, |o.sections| + 2)
    requires Counted(o, counts) && symtabIndex == SymtabIndex(o)
    modifies headers, shstrtab
    ensures shstrtab.Valid() && Filled(o, headers, shstrtab.names, symtabIndex)
    ensures fresh(relaShndx) && relaShndx.Length == |o.sections|
    ensures forall i :: 0 <= i < |o.sections| ==> relaShndx[i] == RelaIndex(o, i)
  {
    hide NameOffset, Begin, Names, RelocsOf;
    relaShndx := new nat[|o.sections|](_ => 0);
    var k := |o.sections| + 2;
    for i := 0 to |o.sections|
      invariant k == |o.sections| + 2 + |RelocatedBelow(o, i)| && k <= symtabIndex
      invariant shstrtab.Valid() && Filled(o, headers, shstrtab.names, k)
      invariant forall j :: 0 <= j < i ==> relaShndx[j] == RelaIndex(o, j)
      invariant forall j :: i <= j < |o.sections| ==> relaShndx[j] == 0
    {
      if counts[i] == 0 { continue; }
      RelocatedPlace(o, i);
      RelaUnplaced(o, i, k);
      AddHeader(o, headers, shstrtab, k, RelaName(o.sections[i].name),
                Shdr(0, SHT_RELA, 0, 0, 24 * counts[i], symtabIndex, 1 + i, 8, 24));
      relaShndx[i] := k;
      k := k + 1;
    }
  }

  lemma RelaUnplaced(o: Object, i: nat, k: nat)
    requires |o.sections| + 1 < k < SymtabIndex(o) && Relocated(o)[k - |o.sections| - 2] == i
    ensures NameAt(o, k - 1) == RelaName(o.sections[i].name)
    ensures Unplaced(o, k).(name := 0) == Shdr(0, SHT_RELA, 0, 0, 24 * |RelocsOf(o.relocs, i)|, SymtabIndex(o), 1 + i, 8, 24)
  {
    hide NameOffset, Begin, Names, RelocsOf, RelaName;
  }

  lemma TailUnplaced(o: Object)
    ensures var k := SymtabIndex(o);
            NameAt(o, k - 1) == Ascii(".symtab") && NameAt(o, k) == Ascii(".strtab") && NameAt(o, k + 1) == Ascii(".shstrtab")
    ensures var k := SymtabIndex(o);
            Unplaced(o, k).(name := 0) == Shdr(0, SHT_SYMTAB, 0, 0, 24 * (|o.symbols| + 1), k + 1, FirstGlobal(o), 8, 24) &&
            Unplaced(o, k + 1).(name := 0) == Shdr(0, SHT_STRTAB, 0, 0, |StrTab(SymbolNames(o))|, 0, 0, 1, 0) &&
            Unplaced(o, k + 2).(name := 0) == Shdr(0, SHT_STRTAB, 0, 0, |StrTab(Names(o))|, 0, 0, 1, 0)
  {
    hide NameOffset, Begin, Names, RelocsOf, StrTab, FirstGlobal, SymbolNames;
  }

  /** .symtab, .strtab and .shstrtab; the last one's size is known only once its own name is
      in the table. */
  method AddTailHeaders(o: Object, headers: array<Shdr>, shstrtab: StringTable, symtabSize: nat, strtabSize: nat, firstGlobal: nat)
    requires shstrtab.Valid() && Filled(o, headers, shstrtab.names, SymtabIndex(o))
    requires symtabSize == 24 * (|o.symbols| + 1) && strtabSize == |StrTab(SymbolNames(o))| && firstGlobal == FirstGlobal(o)
    modifies headers, shstrtab
    ensures shstrtab.Valid() && Filled(o, headers, shstrtab.names, HeaderCount(o)) && shstrtab.names == Names(o)
  {
    hide NameOffset, Begin, Names, RelocsOf, StrTab, FirstGlobal, SymbolNames, NameAt, HeaderAt, Unplaced;
    TailUnplaced(o);
    var k := SymtabIndex(o);
    AddHeader(o, headers, shstrtab, k, Ascii(".symtab"), Shdr(0, SHT_SYMTAB, 0, 0, symtabSize, k + 1, firstGlobal, 8, 24));
    AddHeader(o, headers, shstrtab, k + 1, Ascii(".strtab"), Shdr(0, SHT_STRTAB, 0, 0, strtabSize, 0, 0, 1, 0));
    AddLastHeader(o, headers, shstrtab);
  }

  method AddLastHeader(o: Object, headers: array<Shdr>, shstrtab: StringTable)
    requires shstrtab.Valid() && Filled(o, headers, shstrtab.names, HeaderCount(o) - 1)
    modifies headers, shstrtab
    ensures shstrtab.Valid() && Filled(o, headers, shstrtab.names, HeaderCount(o)) && shstrtab.names == Names(o)
  {
    hide NameOffset, Begin, Names, RelocsOf, StrTab, FirstGlobal, SymbolNames, NameAt, HeaderAt, Unplaced;
    TailUnplaced(o);
    var k := HeaderCount(o) - 1;
    NameAdded(o, k - 1);
    HeaderNameOffset(o, k);
    var offset := shstrtab.Add(Ascii(".shstrtab"));
    assert Names(o)[..k] == Names(o);
    headers[k] := Shdr(offset, SHT_STRTAB, 0, 0, 0, 0, 0, 1, 0);
    headers[k] := headers[k].(size := |shstrtab.data|);
  }

  // ----- layout -----

  lemma EndStep(o: Object, k: nat)
    requires k < HeaderCount(o)
    ensures Begin(Slots(o), k) == AlignUp(End(Slots(o)[..k]), SlotAt(o, k).align)
    ensures End(Slots(o)[..k + 1]) == Begin(Slots(o), k) + SlotAt(o, k).size
  {
    hide SlotAt, AlignUp;
    assert Slots(o)[..k + 1][..k] == Slots(o)[..k];
  }

  lemma EndStart(o: Object)
    ensures End(Slots(o)[..1]) == 64
  {
    EndStep(o, 0);
    assert Slots(o)[..0] == [];
  }

  /** Headers below k of those with a payload have their offsets; `offset` is past slot s - 1. */
  ghost predicate Placed(o: Object, headers: array<Shdr>, k: nat)
    reads headers
  {
    && headers.Length == HeaderCount(o) && k <= HeaderCount(o)
    && (forall j :: 0 <= j < k ==> headers[j] == HeaderAt(o, j))
    && (forall j :: k <= j < HeaderCount(o) ==> headers[j] == Unplaced(o, j))
  }

  method PlaceContents(o: Object, headers: array<Shdr>) returns (offset: nat)
    requires Placed(o, headers, 1)
    modifies headers
    ensures Placed(o, headers, |o.sections| + 1) && offset == End(Slots(o)[..|o.sections| + 1])
  {
    hide NameOffset, Begin, Names, RelocsOf, End, Slots, AlignUp;
    offset := 64;
    EndStart(o);
    for i := 0 to |o.sections|
      invariant Placed(o, headers, i + 1) && offset == End(Slots(o)[..i + 1])
    {
      EndStep(o, i + 1);
      AlignOne(offset);
      var h := headers[i + 1];
      if h.kind == SHT_NOBITS {
        headers[i + 1] := h.(offset := offset);
      } else {
        offset := AlignUp(offset, h.align);
        headers[i + 1] := h.(offset := offset);
        offset := offset + h.size;
      }
    }
  }

  lemma AlignOne(v: nat)
    ensures AlignUp(v, 1) == v
  {}

  lemma NoteUnplaced(o: Object)
    ensures HeaderAt(o, |o.sections| + 1) == Unplaced(o, |o.sections| + 1)
    ensures HeaderAt(o, 0) == Unplaced(o, 0)
  {}

  method PlaceRelas(o: Object, headers: array<Shdr>, counts: array<nat>, relaShndx: array<nat>, start: nat) returns (offset: nat)
    requires Placed(o, headers, |o.sections| + 1) && start == End(Slots(o)[..|o.sections| + 1])
    requires Counted(o, counts) && relaShndx.Length == |o.sections|
    requires forall i :: 0 <= i < |o.sections| ==> relaShndx[i] == RelaIndex(o, i)
    modifies headers
    ensures Placed(o, headers, SymtabIndex(o)) && offset == End(Slots(o)[..SymtabIndex(o) - 1])
  {
    hide NameOffset, Begin, Names, RelocsOf, End, Slots, AlignUp, HeaderAt, SlotAt;
    offset := start;
    NoteUnplaced(o);
    ghost var k := |o.sections| + 2;
    for i := 0 to |o.sections|
      invariant k == |o.sections| + 2 + |RelocatedBelow(o, i)| && k <= SymtabIndex(o)
      invariant Placed(o, headers, k) && offset == End(Slots(o)[..k - 1])
    {
      if counts[i] == 0 { continue; }
      RelocatedPlace(o, i);
      RelaUnplaced(o, i, k);
      EndStep(o, k - 1);
      RelaSlot(o, i, k);
      var h := headers[relaShndx[i]];
      offset := AlignUp(offset, 8);
      headers[relaShndx[i]] := h.(offset := offset);
      offset := offset + h.size;
      k := k + 1;
    }
  }

  lemma RelaSlot(o: Object, i: nat, k: nat)
    requires |o.sections| + 1 < k < SymtabIndex(o) && Relocated(o)[k - |o.sections| - 2] == i
    ensures SlotAt(o, k - 1) == Slot(8, 24 * |RelocsOf(o.relocs, i)|)
    ensures HeaderAt(o, k) == Unplaced(o, k).(offset := Begin(Slots(o), k - 1))
  {
    hide NameOffset, Begin, Names, RelocsOf, StrTab;
  }

  lemma TailSlots(o: Object)
    ensures var k := SymtabIndex(o);
            SlotAt(o, k - 1) == Slot(8, 24 * (|o.symbols| + 1)) && SlotAt(o, k) == Slot(1, |StrTab(SymbolNames(o))|) &&
            SlotAt(o, k + 1) == Slot(1, |StrTab(Names(o))|) && SlotAt(o, k + 2).align == 8
    ensures forall k :: SymtabIndex(o) <= k < HeaderCount(o) ==>
              HeaderAt(o, k) == Unplaced(o, k).(offset := Begin(Slots(o), k - 1)) && Unplaced(o, k).size == SlotAt(o, k - 1).size
  {
    hide NameOffset, Begin, Names, RelocsOf, StrTab, SymbolNames;
  }

  /** .symtab, .strtab and .shstrtab, found from the end; then the header table. */
  method PlaceTail(o: Object, headers: array<Shdr>, start: nat) returns (sectionHeaderOffset: nat)
    requires Placed(o, headers, SymtabIndex(o)) && start == End(Slots(o)[..SymtabIndex(o) - 1])
    modifies headers
    ensures Placed(o, headers, HeaderCount(o)) && sectionHeaderOffset == HeaderOffset(o)
  {
    hide NameOffset, Begin, Names, RelocsOf, End, Slots, AlignUp, HeaderAt, SlotAt, StrTab, SymbolNames, Unplaced;
    TailSlots(o);
    var last := HeaderCount(o) - 1;
    EndStep(o, last - 3);
    EndStep(o, last - 2);
    EndStep(o, last - 1);
    EndStep(o, last);
    var offset := AlignUp(start, 8);
    headers[last - 2] := headers[last - 2].(offset := offset);
    offset := offset + headers[last - 2].size;
    AlignOne(offset);
    headers[last - 1] := headers[last - 1].(offset := offset);
    offset := offset + headers[last - 1].size;
    AlignOne(offset);
    headers[last] := headers[last].(offset := offset);
    offset := offset + headers[last].size;
    offset := AlignUp(offset, 8);
    sectionHeaderOffset := offset;
  }

  // ----- writing -----

  /** What has been written once the pieces below k are out. */
  ghost predicate Written(o: Object, file: Bytes, k: nat) {
    k <= HeaderCount(o) && file == Place(Pieces(o)[..k])
  }

  lemma PlaceStep(o: Object, file: Bytes, k: nat)
    requires k < HeaderCount(o) && Written(o, file, k)
    ensures |file| == End(Slots(o)[..k]) && |file| <= Begin(Slots(o), k)
    ensures Written(o, file + Zeros(Begin(Slots(o), k) - |file|) + PieceAt(o, k).data, k + 1)
  {
    hide PieceAt, SlotAt, Place, Begin, End, Shapes, Slots;
    ElfRoundTrip.ShapesAreSlots(o);
    PlaceGrows(Pieces(o), k);
  }

  /** Zeros in chunks of at most 16, up to the target. */
  method PadTo(file: Bytes, target: nat) returns (padded: Bytes)
    requires |file| <= target
    ensures padded == file + Zeros(target - |file|)
  {
    padded := file;
    while |padded| < target
      invariant |file| <= |padded| <= target && padded == file + Zeros(|padded| - |file|)
    {
      var chunk := if target - |padded| > 16 then 16 else target - |padded|;
      padded := padded + Zeros(chunk);
    }
  }

  /** Pad to the promised offset and write the piece. */
  method WritePiece(o: Object, file: Bytes, ghost k: nat, offset: nat, data: Bytes) returns (grown: Bytes)
    requires k < HeaderCount(o) && Written(o, file, k) && offset == Begin(Slots(o), k) && data == PieceAt(o, k).data
    ensures Written(o, grown, k + 1)
  {
    PlaceStep(o, file, k);
    grown := PadTo(file, offset);
    grown := grown + data;
  }

  lemma WriteStart(o: Object)
    ensures Written(o, Ident() + Enc(EhdrWidths(), EhdrFields(o)), 1)
  {
    hide Enc, EhdrFields, Ident, EhdrWidths, PieceAt, Width;
    assert Place(Pieces(o)[..0]) == [];
    PlaceStep(o, [], 0);
    ElfRoundTrip.FirstPiece(o);
    ElfRoundTrip.FirstSlot(o);
    assert [] + Zeros(0) + PieceAt(o, 0).data == PieceAt(o, 0).data;
  }

  method WriteContents(o: Object, headers: array<Shdr>, start: Bytes) returns (file: Bytes)
    requires Placed(o, headers, HeaderCount(o)) && Written(o, start, 1)
    ensures Written(o, file, |o.sections| + 1)
  {
    hide NameOffset, Begin, Names, RelocsOf, Slots, Written;
    file := start;
    for i := 0 to |o.sections|
      invariant Written(o, file, i + 1)
    {
      var h := headers[i + 1];
      if h.kind == SHT_NOBITS {
        NoBits(o, i, file);
      } else {
        file := WritePiece(o, file, i + 1, h.offset, o.sections[i].data);
      }
    }
  }

  /** A .bss section writes nothing and pads nothing. */
  lemma NoBits(o: Object, i: nat, file: Bytes)
    requires i < |o.sections| && o.sections[i].kind.Bss? && Written(o, file, i + 1)
    ensures Written(o, file, i + 2)
  {
    assert PieceAt(o, i + 1).data == [] && SlotAt(o, i + 1).align == 1;
    PlaceStep(o, file, i + 1);
    EndStep(o, i + 1);
    AlignOne(End(Slots(o)[..i + 1]));
    hide Written, Begin, End, Slots, PieceAt, SlotAt;
    assert file + Zeros(0) + [] == file;
  }

  ghost predicate Defined(o: Object, r: Reloc) { Find(o.symbols, r.symbol).Some? }

  /** The records of one section's relocations, found by scanning all of them. */
  method EmitRelas(o: Object, i: nat, entryOf: array<nat>) returns (error: Option<Error>, table: Bytes)
    requires entryOf.Length == |o.symbols| && forall j :: 0 <= j < |o.symbols| ==> entryOf[j] == EntryOf(o, j)
    ensures error.None? <==> forall r :: r in RelocsOf(o.relocs, i) ==> Defined(o, r)
    ensures error.None? ==> table == EncTable(RelaWidths(), RelaRows(o, i))
  {
    hide Enc, EncTable, RelaWidths, EntryOf, RelaRecord, RelaRowsOf, FindFrom, RelocsOf;
    assert RelocsOf(o.relocs[..0], i) == [] by { NoRelocs(o.relocs, i); }
    table := [];
    NoRows(RelaWidths(), RelaRowsOf(o, []));
    var r := 0;
    while r < |o.relocs|
      invariant r <= |o.relocs|
      invariant forall x :: x in RelocsOf(o.relocs[..r], i) ==> Defined(o, x)
      invariant table == EncTable(RelaWidths(), RelaRowsOf(o, RelocsOf(o.relocs[..r], i)))
    {
      RelocsNext(o.relocs, i, r);
      var reloc := o.relocs[r];
      if reloc.section == i {
        var s := Find(o.symbols, reloc.symbol);
        if s.None? {
          RelocsOfComplete(o.relocs, r);
          assert !Defined(o, reloc);
          return Some(UndefinedSymbol), table;
        }
        RelaRowsGrow(o, RelocsOf(o.relocs[..r], i), reloc);
        assert RelaRecord(reloc, entryOf[s.value]) == RelaRow(o, reloc);
        table := table + Enc(RelaWidths(), RelaRecord(reloc, entryOf[s.value]));
      }
      r := r + 1;
    }
    assert o.relocs[..r] == o.relocs;
    error := None;
  }

  lemma NoRelocs(relocs: seq<Reloc>, i: nat)
    ensures RelocsOf(relocs[..0], i) == []
  {}

  lemma RelocsNext(relocs: seq<Reloc>, i: nat, r: nat)
    requires r < |relocs|
    ensures RelocsOf(relocs[..r + 1], i)
      == if relocs[r].section == i then RelocsOf(relocs[..r], i) + [relocs[r]] else RelocsOf(relocs[..r], i)
  {
    assert relocs[..r + 1][..r] == relocs[..r];
  }

  lemma RelaRowsGrow(o: Object, rs: seq<Reloc>, r: Reloc)
    ensures EncTable(RelaWidths(), RelaRowsOf(o, rs + [r])) == EncTable(RelaWidths(), RelaRowsOf(o, rs)) + Enc(RelaWidths(), RelaRow(o, r))
  {
    hide Enc, RelaWidths, RelaRow;
    var rows := RelaRowsOf(o, rs + [r]);
    assert rows[..|rs|] == RelaRowsOf(o, rs) && rows[|rs|] == RelaRow(o, r);
  }

  method WriteRelas(o: Object, headers: array<Shdr>, counts: array<nat>, relaShndx: array<nat>, entryOf: array<nat>, start: Bytes)
    returns (error: Option<Error>, file: Bytes)
    requires Placed(o, headers, HeaderCount(o)) && Written(o, start, |o.sections| + 1)
    requires Counted(o, counts) && relaShndx.Length == |o.sections|
    requires forall i :: 0 <= i < |o.sections| ==> relaShndx[i] == RelaIndex(o, i)
    requires entryOf.Length == |o.symbols| && forall j :: 0 <= j < |o.symbols| ==> entryOf[j] == EntryOf(o, j)
    ensures error.None? <==> forall i :: 0 <= i < |o.sections| ==> SectionDefined(o, i)
    ensures error.None? ==> Written(o, file, SymtabIndex(o) - 1)
  {
    hide NameOffset, Begin, Names, RelocsOf, Slots, Written, HeaderAt, SlotAt, EncTable, RelaWidths, RelaRows, PieceAt, EntryOf;
    file := start;
    ghost var k := |o.sections| + 2;
    for i := 0 to |o.sections|
      invariant k == |o.sections| + 2 + |RelocatedBelow(o, i)| && k <= SymtabIndex(o) && Written(o, file, k - 1)
      invariant forall j :: 0 <= j < i ==> SectionDefined(o, j)
    {
      if counts[i] == 0 { continue; }
      RelocatedPlace(o, i);
      RelaSlot(o, i, k);
      RelaPiece(o, i, k);
      var table;
      error, table := EmitRelas(o, i, entryOf);
      if error.Some? {
        assert !SectionDefined(o, i);
        return;
      }
      file := WritePiece(o, file, k - 1, headers[relaShndx[i]].offset, table);
      k := k + 1;
    }
    error := None;
  }

  ghost predicate SectionDefined(o: Object, i: nat) {
    forall r :: r in RelocsOf(o.relocs, i) ==> Defined(o, r)
  }

  lemma RelaPiece(o: Object, i: nat, k: nat)
    requires |o.sections| + 1 < k < SymtabIndex(o) && Relocated(o)[k - |o.sections| - 2] == i
    ensures PieceAt(o, k - 1).data == EncTable(RelaWidths(), RelaRows(o, i))
  {
    hide RelocsOf, RelaRows, EncTable, RelaWidths;
  }

  lemma TailPieces(o: Object)
    ensures var k := SymtabIndex(o);
            PieceAt(o, k - 1).data == EncTable(SymWidths(), SymRows(o)) && PieceAt(o, k).data == StrTab(SymbolNames(o)) &&
            PieceAt(o, k + 1).data == StrTab(Names(o)) && PieceAt(o, k + 2).data == EncTable(ShdrWidths(), HeaderRows(o))
  {
    hide RelocsOf, RelaRows, EncTable, RelaWidths, SymWidths, ShdrWidths, SymRows, StrTab, HeaderRows, Names, SymbolNames;
  }

  ghost predicate HeadersWritten(o: Object, table: Bytes, k: nat) {
    k <= HeaderCount(o) && table == EncTable(ShdrWidths(), HeaderRows(o)[..k])
  }

  lemma HeaderWritten(o: Object, table: Bytes, k: nat)
    requires HeadersWritten(o, table, k) && k < HeaderCount(o)
    ensures HeadersWritten(o, table + Enc(ShdrWidths(), HeaderAt(o, k).Fields()), k + 1)
  {
    ElfRoundTrip.LastPiece(o);
    hide Enc, EncTable, ShdrWidths, HeaderAt, Shdr.Fields, HeaderRows, HeaderCount;
    TableGrows(ShdrWidths(), HeaderRows(o), k);
  }

  lemma HeadersStart(o: Object)
    ensures HeadersWritten(o, [], 0)
    ensures forall table :: HeadersWritten(o, table, HeaderCount(o)) ==> table == EncTable(ShdrWidths(), HeaderRows(o))
  {
    hide Enc, ShdrWidths, HeaderAt;
    NoRows(ShdrWidths(), HeaderRows(o)[..0]);
    assert HeaderRows(o)[..HeaderCount(o)] == HeaderRows(o);
  }

  method WriteHeaders(o: Object, headers: array<Shdr>) returns (table: Bytes)
    requires Placed(o, headers, HeaderCount(o))
    ensures table == EncTable(ShdrWidths(), HeaderRows(o))
  {
    hide Enc, EncTable, ShdrWidths, HeaderAt, Shdr.Fields, HeaderRows, HeaderCount, HeadersWritten;
    HeadersStart(o);
    table := [];
    for k := 0 to headers.Length
      invariant HeadersWritten(o, table, k)
    {
      HeaderWritten(o, table, k);
      table := table + Enc(ShdrWidths(), headers[k].Fields());
    }
  }

  lemma NoRows(w: seq<nat>, rows: seq<seq<nat>>)
    requires rows == []
    ensures EncTable(w, rows) == []
  {}

  method WriteTail(o: Object, headers: array<Shdr>, symtab: Bytes, strtab: Bytes, shstrtab: Bytes, sectionHeaderOffset: nat, start: Bytes)
    returns (file: Bytes)
    requires Placed(o, headers, HeaderCount(o)) && Written(o, start, SymtabIndex(o) - 1) && sectionHeaderOffset == HeaderOffset(o)
    requires symtab == EncTable(SymWidths(), SymRows(o)) && strtab == StrTab(SymbolNames(o)) && shstrtab == StrTab(Names(o))
    ensures file == File(o)
  {
    hide NameOffset, Begin, Names, RelocsOf, Slots, Written, HeaderAt, SlotAt, EncTable, RelaWidths, PieceAt, SymWidths, ShdrWidths,
         SymRows, StrTab, HeaderRows, SymbolNames, Unplaced;
    TailSlots(o);
    TailPieces(o);
    var k := SymtabIndex(o);
    file := WritePiece(o, start, k - 1, headers[k].offset, symtab);
    file := WritePiece(o, file, k, headers[k + 1].offset, strtab);
    file := WritePiece(o, file, k + 1, headers[k + 2].offset, shstrtab);
    var table := WriteHeaders(o, headers);
    file := WritePiece(o, file, k + 2, sectionHeaderOffset, table);
    AllWritten(o, file);
  }

  lemma AllWritten(o: Object, file: Bytes)
    requires Written(o, file, HeaderCount(o))
    ensures file == File(o)
  {
    hide HeaderCount, Pieces, Place;
    assert Pieces(o)[..HeaderCount(o)] == Pieces(o);
  }

  // ----- the writer -----

  /** The layout pass: contents, relocation tables, the tail. */
  method LayOut(o: Object, headers: array<Shdr>, counts: array<nat>, relaShndx: array<nat>, ghost names: seq<Bytes>)
    returns (sectionHeaderOffset: nat)
    requires Filled(o, headers, names, HeaderCount(o)) && Counted(o, counts) && relaShndx.Length == |o.sections|
    requires forall i :: 0 <= i < |o.sections| ==> relaShndx[i] == RelaIndex(o, i)
    modifies headers
    ensures Placed(o, headers, HeaderCount(o)) && sectionHeaderOffset == HeaderOffset(o)
  {
    hide Filled, Placed, RelocsOf, Relocated;
    AllFilled(o, headers, names);
    var offset := PlaceContents(o, headers);
    offset := PlaceRelas(o, headers, counts, relaShndx, offset);
    sectionHeaderOffset := PlaceTail(o, headers, offset);
  }

  /** The write pass. */
  method WriteFile(o: Object, headers: array<Shdr>, counts: array<nat>, relaShndx: array<nat>, entryOf: array<nat>,
                   symtab: Bytes, strtab: Bytes, shstrtab: Bytes, sectionHeaderOffset: nat)
    returns (error: Option<Error>, file: Bytes)
    requires Placed(o, headers, HeaderCount(o)) && Counted(o, counts) && relaShndx.Length == |o.sections|
    requires forall i :: 0 <= i < |o.sections| ==> relaShndx[i] == RelaIndex(o, i)
    requires entryOf.Length == |o.symbols| && forall j :: 0 <= j < |o.symbols| ==> entryOf[j] == EntryOf(o, j)
    requires symtab == EncTable(SymWidths(), SymRows(o)) && strtab == StrTab(SymbolNames(o)) && shstrtab == StrTab(Names(o))
    requires sectionHeaderOffset == HeaderOffset(o)
    ensures error.None? <==> forall i :: 0 <= i < |o.sections| ==> SectionDefined(o, i)
    ensures error.None? ==> file == File(o)
  {
    hide Placed, RelocsOf, Relocated, File, Written, SectionDefined, EncTable, SymWidths, SymRows, StrTab, SymbolNames, Names,
         HeaderOffset, EntryOf, RelaIndex;
    var count := headers.Length;
    HeaderLength(o, headers);
    ElfRoundTrip.HeaderFieldsRead(o);
    file := WriteEhdr(o, [1, 62, 1, 0, 0, sectionHeaderOffset, 0, 64, 0, 0, 64, count, count - 1]);
    file := WriteContents(o, headers, file);
    error, file := WriteRelas(o, headers, counts, relaShndx, entryOf, file);
    if error.None? {
      file := WriteTail(o, headers, symtab, strtab, shstrtab, sectionHeaderOffset, file);
    }
  }

  lemma HeaderLength(o: Object, headers: array<Shdr>)
    requires Placed(o, headers, HeaderCount(o))
    ensures headers.Length == HeaderCount(o)
    ensures EhdrFields(o) == [1, 62, 1, 0, 0, HeaderOffset(o), 0, 64, 0, 0, 64, HeaderCount(o), HeaderCount(o) - 1]
  {}

  /** The object is written exactly when every index is in range, every relocation has an ELF
      form and every target is defined; what is written is then File(o). */
  method WriteObjectFile(o: Object) returns (result: Result<Bytes>)
    ensures result.Ok? <==> Writable(o)
    ensures result.Ok? ==> result.value == File(o)
  {
    hide NameOffset, Begin, Names, RelocsOf, Slots, Written, HeaderAt, SlotAt, EncTable, RelaWidths, PieceAt, SymWidths, ShdrWidths,
         SymRows, StrTab, HeaderRows, SymbolNames, Unplaced, Find, File, EntryOf, Enc, EhdrFields, Ident, EhdrWidths, Filled, Placed,
         Relocated;
    var error, counts := TallyRelocations(o);
    if error.Some? {
      Blame(o);
      return Err(error.value);
    }
    var m := CountRelocated(o, counts);
    var headers := new Shdr[1 + |o.sections| + m + 4](_ => Shdr(0, 0, 0, 0, 0, 0, 0, 0, 0));
    var shstrtab := new StringTable();
    var strtab := new StringTable();
    NullHeader(o, headers);
    AddContentHeaders(o, headers, shstrtab);
    var symtab, entryOf, firstGlobal;
    error, symtab, entryOf, firstGlobal := BuildSymtab(o, strtab);
    if error.Some? {
      Blame(o);
      return Err(error.value);
    }
    SymtabSize(o);
    var relaShndx := AddRelaHeaders(o, headers, shstrtab, counts, |o.sections| + 2 + m);
    AddTailHeaders(o, headers, shstrtab, |symtab|, |strtab.data|, firstGlobal);
    var sectionHeaderOffset := LayOut(o, headers, counts, relaShndx, shstrtab.names);
    var file;
    error, file := WriteFile(o, headers, counts, relaShndx, entryOf, symtab, strtab.data, shstrtab.data, sectionHeaderOffset);
    Blame(o);
    result := if error.Some? then Err(error.value) else Ok(file);
  }

  method WriteEhdr(o: Object, fields: seq<nat>) returns (file: Bytes)
    requires fields == EhdrFields(o)
    ensures Written(o, file, 1)
  {
    hide Enc, EhdrFields, Written;
    WriteStart(o);
    file := Ident() + Enc(EhdrWidths(), fields);
  }

  lemma NullHeader(o: Object, headers: array<Shdr>)
    requires headers.Length == HeaderCount(o) && headers[0] == Shdr(0, 0, 0, 0, 0, 0, 0, 0, 0)
    ensures Filled(o, headers, [], 1)
  {
    hide Names, Relocated;
    assert Names(o)[..0] == [];
  }

  lemma AllFilled(o: Object, headers: array<Shdr>, names: seq<Bytes>)
    requires Filled(o, headers, names, HeaderCount(o))
    ensures Placed(o, headers, 1)
  {
    NoteUnplaced(o);
    hide HeaderAt, Unplaced, Names;
  }

  lemma SymtabSize(o: Object)
    ensures |EncTable(SymWidths(), SymRows(o))| == 24 * (|o.symbols| + 1)
  {
    Widths();
    TableSize(SymWidths(), SymRows(o), 24);
  }

  /** The three checks the writer makes, together. */
  lemma Blame(o: Object)
    ensures Writable(o) <==>
              (forall r :: r in o.relocs ==> GoodReloc(o, r)) && (forall s :: s in o.symbols ==> SymbolPlaced(o, s)) &&
              (forall i :: 0 <= i < |o.sections| ==> SectionDefined(o, i))
  {
    hide Find, RelocsOf;
    if (forall r :: r in o.relocs ==> GoodReloc(o, r)) && (forall i :: 0 <= i < |o.sections| ==> SectionDefined(o, i)) {
      forall r | r in o.relocs ensures Find(o.symbols, r.symbol).Some? {
        assert GoodReloc(o, r) && SectionDefined(o, r.section);
        var k :| 0 <= k < |o.relocs| && o.relocs[k] == r;
        RelocsOfComplete(o.relocs, k);
        assert Defined(o, r);
      }
    }
    if Writable(o) {
      forall r | r in o.relocs ensures GoodReloc(o, r) {}
      forall s | s in o.symbols ensures SymbolPlaced(o, s) {}
      forall i | 0 <= i < |o.sections| ensures SectionDefined(o, i) {}
    }
  }
}
