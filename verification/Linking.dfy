/** What a linker makes of the two object files: the value each format's rules put into a
    relocated field. */
module Linking {
  import opened ByteCodec
  import opened ObjectModel
  import opened Wrappers
  import Elf
  import ElfRoundTrip
  import Coff
  import CoffRoundTrip
  import Words

  /** System V AMD64: S + A in 64 bits, S + A - P in 32; the field's old bytes do not matter. */
  function ElfField(v: Elf.RelaView, s: int, p: int): Option<(nat, int)> {
    if v.kind == 1 then Some((8, (s + v.addend) % 0x1_0000_0000_0000_0000))
    else if v.kind == 2 then Some((4, (s + v.addend - p) % 0x1_0000_0000))
    else None
  }

  /** PE/COFF: the addend is what the field holds, and REL32 counts from the field's end. */
  function CoffField(v: Coff.RelocView, s: int, p: int, held: int): Option<(nat, int)> {
    if v.kind == 1 then Some((8, (s + held) % 0x1_0000_0000_0000_0000))
    else if v.kind == 4 then Some((4, (s + held - (p + 4)) % 0x1_0000_0000))
    else None
  }

  function FieldRange(k: RelocKind): int { if k.Addr64? then 0x1_0000_0000_0000_0000 else 0x1_0000_0000 }

  lemma Congruent(a: int, b: int, n: int)
    requires n > 0
    ensures a % n == b % n <==> (a - b) % n == 0
  {
    var qa, qb := a / n, b / n;
    assert a == n * qa + a % n && b == n * qb + b % n;
    if a % n == b % n {
      assert a - b == n * (qa - qb) + 0;
      Words.DivUnique(a - b, n, qa - qb, 0);
    } else if (a - b) % n == 0 {
      var q := (a - b) / n;
      assert a == n * (q + qb) + b % n;
      Words.DivUnique(a, n, q + qb, b % n);
    }
  }

  /** For the two kinds both formats know, the two files link to the same field value, wherever
      symbol and field end up, exactly when the bytes already in the field are the relocation's
      addend in that width. With zero bytes in the field, as the code buffer has them, that is
      a zero addend. */
  lemma SameLinkedField(o: Object, r: Reloc, s: int, p: int, held: int)
    requires r.kind.Rel32? || r.kind.Addr64?
    requires Find(o.symbols, r.symbol).Some?
    ensures ElfField(ElfRoundTrip.RelaViewOf(o, r), s, p).Some?
    ensures ElfField(ElfRoundTrip.RelaViewOf(o, r), s, p) == CoffField(CoffRoundTrip.RelocViewOf(o, r), s, p, held)
            <==> (r.addend - held) % FieldRange(r.kind) == 0
  {
    hide Elf.EntryOf, FindFrom;
    if r.kind.Rel32? {
      Congruent(s + r.addend - 4 - p, s + held - (p + 4), 0x1_0000_0000);
    } else {
      Congruent(s + r.addend, s + held, 0x1_0000_0000_0000_0000);
    }
  }
}
