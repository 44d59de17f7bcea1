/** APEX packages as the daemon sees them after opening a file: the manifest, the bundled key and the digest. */
module Packages {
  import opened Basics
  import opened Naming

  datatype Apex = Apex(
    name: string,
    version: int64,
    key: string,
    digest: string,
    providesSharedLibs: bool,
    compressed: bool)
  {
    function Id(): string {
      PackageId(name, version)
    }
  }

  const APEX_SUFFIX := ".apex"
  const DECOMPRESSED_SUFFIX := ".decompressed.apex"

  /** The file name under which a package is staged and backed up (StageDestPath, BackupActivePackages). */
  function FileName(a: Apex): (n: string)
    ensures EndsWith(n, APEX_SUFFIX)
  {
    a.Id() + APEX_SUFFIX
  }

  lemma {:induction false} FileNameDeterminesPackage(a: Apex, b: Apex)
    requires FileName(a) == FileName(b)
    ensures a.name == b.name && a.version == b.version
  {
    AppendInjective(a.Id(), b.Id(), APEX_SUFFIX);
    PackageIdInjective(a.name, a.version, b.name, b.version);
  }
}
