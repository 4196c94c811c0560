/** Version packing of include/Version.h: a version word holds the revision in
    its upper 16 bits, the major version in bits 8..15 and the minor version
    in bits 0..7. The macros work on unsigned 32-bit words. */
module Version {
  const VersionMajor: bv32 := 3
  const VersionMinor: bv32 := 0
  const Revision: bv32 := 0

  /** SIMUTRACE_VER_MAJOR */
  function VerMajor(ver: bv32): (r: bv32)
    ensures r < 0x100
  {
    (ver >> 8) & 0xFF
  }

  /** SIMUTRACE_VER_MINOR */
  function VerMinor(ver: bv32): (r: bv32)
    ensures r < 0x100
  {
    ver & 0xFF
  }

  /** SIMUTRACE_VER_REVISION */
  function VerRevision(ver: bv32): (r: bv32)
    ensures r < 0x1_0000
  {
    ver >> 16
  }

  /** SIMUTRACE_VER: the three extractors recover the packed parts; the
      revision only survives when it fits into 16 bits. */
  function Ver(major: bv32, minor: bv32, revision: bv32): (v: bv32)
    ensures VerMajor(v) == major & 0xFF
    ensures VerMinor(v) == minor & 0xFF
    ensures revision < 0x1_0000 ==> VerRevision(v) == revision
    ensures VerRevision(v) == revision & 0xFFFF
  {
    Unpack(major, minor, revision);
    (revision << 16) | ((major & 0xFF) << 8) | (minor & 0xFF)
  }

  lemma Unpack(major: bv32, minor: bv32, revision: bv32)
    ensures var v := (revision << 16) | ((major & 0xFF) << 8) | (minor & 0xFF);
            VerMajor(v) == major & 0xFF && VerMinor(v) == minor & 0xFF &&
            VerRevision(v) == revision & 0xFFFF
  {
  }

  /** SIMUTRACE_VERSION, the version this release reports: 3.0 revision 0. */
  function CurrentVersion(): (v: bv32)
    ensures VerMajor(v) == 3 && VerMinor(v) == 0 && VerRevision(v) == 0
    ensures v == 0x300
  {
    Ver(VersionMajor, VersionMinor, Revision)
  }

  /** Two packed versions are equal exactly when their parts are. */
  lemma VerInjective(a1: bv32, i1: bv32, r1: bv32, a2: bv32, i2: bv32, r2: bv32)
    requires a1 < 0x100 && i1 < 0x100 && r1 < 0x1_0000
    requires a2 < 0x100 && i2 < 0x100 && r2 < 0x1_0000
    ensures Ver(a1, i1, r1) == Ver(a2, i2, r2) <==> (a1 == a2 && i1 == i2 && r1 == r2)
  {
    var v1, v2 := Ver(a1, i1, r1), Ver(a2, i2, r2);
    assert VerMajor(v1) == a1 && VerMajor(v2) == a2;
    assert VerMinor(v1) == i1 && VerMinor(v2) == i2;
  }
}
