/** The memory-entry stream types of include/SimuTraceEntryTypes.h: a constant
    table of sixteen stream type descriptors and the index expression that
    streamFindMemoryType uses to pick one of them. */
module MemoryTypes {
  import opened Wrappers

  /** Enumeration bounds: ArchitectureSize, MemoryAccessType and
      MemoryAddressType each have two members. */
  const AsMax: nat := 2
  const MatMax: nat := 2
  const AtMax: nat := 2
  const MasTypeTableCount: nat := AsMax * MatMax * AtMax * 2

  /** The parts of _mastypeTable modelled here: the type's name and whether
      entries of the type are 32 bit wide. */
  datatype StreamTypeDescriptor = StreamTypeDescriptor(name: string, arch32Bit: bool)

  function MasTypeTable(): (t: seq<StreamTypeDescriptor>)
    ensures |t| == MasTypeTableCount
    ensures forall i :: 0 <= i < |t| ==> t[i].arch32Bit == (i % 2 == 0)
  {
    [ StreamTypeDescriptor("32bit memory read (physical address)", true),
      StreamTypeDescriptor("64bit memory read (physical address)", false),
      StreamTypeDescriptor("32bit memory write (physical address)", true),
      StreamTypeDescriptor("64bit memory write (physical address)", false),
      StreamTypeDescriptor("32bit memory read (virtual address)", true),
      StreamTypeDescriptor("64bit memory read (virtual address)", false),
      StreamTypeDescriptor("32bit memory write (virtual address)", true),
      StreamTypeDescriptor("64bit memory write (virtual address)", false),
      StreamTypeDescriptor("32bit memory read (data, physical address)", true),
      StreamTypeDescriptor("64bit memory read (data, physical address)", false),
      StreamTypeDescriptor("32bit memory write (data, physical address)", true),
      StreamTypeDescriptor("64bit memory write (data, physical address)", false),
      StreamTypeDescriptor("32bit memory read (data, virtual address)", true),
      StreamTypeDescriptor("64bit memory read (data, virtual address)", false),
      StreamTypeDescriptor("32bit memory write (data, virtual address)", true),
      StreamTypeDescriptor("64bit memory write (data, virtual address)", false) ]
  }

  /** The table index computed by streamFindMemoryType: the four fields are
      OR-ed into disjoint bit positions, so the index is their weighted sum. */
  function TableIndex(size: nat, accessType: nat, addressType: nat, hasData: int): (i: nat)
    requires size < AsMax && accessType < MatMax && addressType < AtMax
    ensures i < MasTypeTableCount
    ensures i == size + 2 * accessType + 4 * addressType + 8 * (if hasData != 0 then 1 else 0)
  {
    var flag: bv8 := if hasData != 0 then 1 else 0;
    var idx: bv8 := (size as bv8) | ((accessType as bv8) * AsMax as bv8)
                  | ((addressType as bv8) * (AsMax * MatMax) as bv8)
                  | (flag * (AsMax * MatMax * AtMax) as bv8);
    idx as nat
  }

  /** streamFindMemoryType: null (None) when a field is out of range,
      otherwise the table entry at TableIndex. */
  function FindMemoryType(size: nat, accessType: nat, addressType: nat, hasData: int): (r: Option<StreamTypeDescriptor>)
    ensures r.None? <==> (size >= AsMax || accessType >= MatMax || addressType >= AtMax)
    ensures r.Some? ==> r.value.arch32Bit == (size == 0)
  {
    if size >= AsMax || accessType >= MatMax || addressType >= AtMax then None
    else
      var t, i := MasTypeTable(), TableIndex(size, accessType, addressType, hasData);
      Some(t[i])
  }

  /** The 64-bit physical write with data, the type the memory replay
      sample reads, is table entry 11. */
  lemma DataWrite64PhysicalIsEntry11()
    ensures TableIndex(1, 1, 0, 1) == 11
    ensures FindMemoryType(1, 1, 0, 1) == Some(MasTypeTable()[11])
    ensures MasTypeTable()[11].name == "64bit memory write (data, physical address)"
  {
  }

  /** Any non-zero hasData selects the same entry as 1. */
  lemma HasDataNormalised(size: nat, accessType: nat, addressType: nat, hasData: int)
    requires hasData != 0
    ensures FindMemoryType(size, accessType, addressType, hasData)
            == FindMemoryType(size, accessType, addressType, 1)
  {
  }

  /** Different valid parameter combinations (after hasData is normalised)
      select different table entries. */
  lemma TableIndexInjective(s1: nat, c1: nat, a1: nat, d1: int, s2: nat, c2: nat, a2: nat, d2: int)
    requires s1 < AsMax && c1 < MatMax && a1 < AtMax
    requires s2 < AsMax && c2 < MatMax && a2 < AtMax
    requires TableIndex(s1, c1, a1, d1) == TableIndex(s2, c2, a2, d2)
    ensures s1 == s2 && c1 == c2 && a1 == a2 && (d1 != 0 <==> d2 != 0)
  {
  }
}
