/** The emitter's one entry point: the object in the target's format, readable by the standard that defines it. */
module ObjectFiles {
  import opened ByteCodec
  import opened ObjectModel
  import Coff
  import CoffRoundTrip
  import CoffWriter
  import Elf
  import ElfRoundTrip
  import ElfWriter

  datatype Format = CoffWin64 | ElfX64

  ghost predicate Writable(format: Format, o: Object) {
    match format
    case CoffWin64 => Coff.Writable(o)
    case ElfX64 => Elf.Writable(o)
  }

  /** The fields of the format hold the object's numbers and names. */
  ghost predicate WithinLimits(format: Format, o: Object) {
    match format
    case CoffWin64 => CoffRoundTrip.WithinLimits(o)
    case ElfX64 => ElfRoundTrip.WithinLimits(o)
  }

  /** A reader of the format gets the whole object back. */
  ghost predicate Readable(format: Format, o: Object, file: Bytes) {
    match format
    case CoffWin64 => Coff.Read(file).Some? && CoffRoundTrip.Recovers(o, Coff.Read(file).value)
    case ElfX64 => Elf.Read(file).Some? && ElfRoundTrip.Recovers(o, Elf.Read(file).value)
  }

  lemma Written(format: Format, o: Object, file: Bytes)
    requires Writable(format, o) && WithinLimits(format, o)
    requires file == match format case CoffWin64 => Coff.File(o) case ElfX64 => Elf.File(o)
    ensures Readable(format, o, file)
  {
    hide Coff.Writable, Coff.Read, Coff.File, CoffRoundTrip.WithinLimits, CoffRoundTrip.Recovers, Elf.Writable, Elf.Read, Elf.File,
         ElfRoundTrip.WithinLimits, ElfRoundTrip.Recovers;
    match format
    case CoffWin64 => CoffRoundTrip.RoundTrip(o);
    case ElfX64 => ElfRoundTrip.RoundTrip(o);
  }

  /** What is written can be read back. */
  method WriteObject(format: Format, o: Object) returns (result: Result<Bytes>)
    ensures result.Ok? <==> Writable(format, o)
    ensures result.Ok? && WithinLimits(format, o) ==> Readable(format, o, result.value)
  {
    hide Coff.Writable, Coff.Read, Coff.File, CoffRoundTrip.WithinLimits, CoffRoundTrip.Recovers, Elf.Writable, Elf.Read, Elf.File,
         ElfRoundTrip.WithinLimits, ElfRoundTrip.Recovers;
    match format {
      case CoffWin64 => result := CoffWriter.WriteObjectFile(o);
      case ElfX64 => result := ElfWriter.WriteObjectFile(o);
    }
    if result.Ok? && WithinLimits(format, o) {
      assert Writable(format, o);
      Written(format, o, result.value);
    }
  }
}
