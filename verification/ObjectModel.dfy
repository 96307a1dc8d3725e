/** The format-neutral object model both writers consume. */
module ObjectModel {
  import opened ByteCodec
  import opened Wrappers

  datatype SectionKind = Text | Rdata | Data | Bss

  datatype Section = Section(name: Bytes, kind: SectionKind, characteristics: nat, alignment: nat,
                             data: Bytes, virtualSize: nat) {
    function Align(): nat { if alignment == 0 then 1 else alignment }

    /** A .bss section's size in memory. */
    function Extent(): nat { if virtualSize > |data| then virtualSize else |data| }
  }

  datatype Binding = Local | Global | External

  datatype Symbol = Symbol(name: Bytes, binding: Binding, section: Option<nat>, value: nat, size: nat)

  datatype RelocKind = Rel32 | Addr64 | Addr32Nb | SectionRel32

  datatype Reloc = Reloc(section: nat, offset: nat, kind: RelocKind, symbol: Bytes, addend: int)

  datatype Object = Object(sections: seq<Section>, symbols: seq<Symbol>, relocs: seq<Reloc>)

  datatype Error = InvalidSection | UnsupportedRelocation | UndefinedSymbol | TooLarge

  datatype Result<+T> = Ok(value: T) | Err(error: Error)

  function Ascii(s: string): (b: Bytes)
    ensures |b| == |s|
    ensures forall i :: 0 <= i < |s| && s[i] as int < 256 ==> b[i] == s[i] as int
  {
    seq(|s|, i requires 0 <= i < |s| => s[i] as int % 256)
  }

  /** The first symbol of that name, as a linear scan finds it. */
  function FindFrom(symbols: seq<Symbol>, name: Bytes, i: nat): (k: Option<nat>)
    requires i <= |symbols|
    ensures k.Some? ==> i <= k.value < |symbols| && symbols[k.value].name == name
    ensures k.Some? ==> forall j :: i <= j < k.value ==> symbols[j].name != name
    ensures k.None? ==> forall j :: i <= j < |symbols| ==> symbols[j].name != name
    decreases |symbols| - i
  {
    if i == |symbols| then None
    else if symbols[i].name == name then Some(i)
    else FindFrom(symbols, name, i + 1)
  }

  function Find(symbols: seq<Symbol>, name: Bytes): Option<nat> { FindFrom(symbols, name, 0) }

  /** The relocations of one section, in order. */
  function RelocsOf(relocs: seq<Reloc>, i: nat): (r: seq<Reloc>)
    ensures forall x :: x in r ==> x in relocs && x.section == i
  {
    if relocs == [] then []
    else
      var last := relocs[|relocs| - 1];
      RelocsOf(relocs[..|relocs| - 1], i) + if last.section == i then [last] else []
  }

  lemma {:induction false} RelocsOfComplete(relocs: seq<Reloc>, r: nat)
    requires r < |relocs|
    ensures relocs[r] in RelocsOf(relocs, relocs[r].section)
  {
    if r < |relocs| - 1 {
      RelocsOfComplete(relocs[..|relocs| - 1], r);
    }
  }

  /** A defined symbol's section exists. */
  predicate SymbolPlaced(o: Object, s: Symbol) {
    s.section.Some? ==> s.section.value < |o.sections|
  }
}
