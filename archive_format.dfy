/** Archive formats accepted by `git archive` (commits/ArchiveFormat.cs). */
module ArchiveFormats {

  /** A C# enum: any int can be stored, two values are declared. */
  newtype ArchiveFormat = int

  const ArchiveZip: ArchiveFormat := 0
  const ArchiveTarGz: ArchiveFormat := 1

  /** ToTypeString: the format's name; "" exactly for values outside the enum. */
  function ToTypeString(f: ArchiveFormat): (s: string)
    ensures f == ArchiveZip ==> s == "zip"
    ensures f == ArchiveTarGz ==> s == "tar.gz"
    ensures s == "" <==> f != ArchiveZip && f != ArchiveTarGz
  {
    if f == ArchiveZip then "zip"
    else if f == ArchiveTarGz then "tar.gz"
    else ""
  }

  /** The two declared formats have different names. */
  lemma ArchiveNamesDiffer()
    ensures ToTypeString(ArchiveZip) != ToTypeString(ArchiveTarGz)
  {
  }
}
