// The MADT of the ACPI specification 4.0a, section 5.2.12: the checksum (boot32.c:390-403) and the walk over its
// records of different lengths (boot32.c:410-454, acpi_struct.h:140-194).
module Madt {
  import opened Bytes

  const HEADER := 36          // sizeof(desc_hdr_t)
  const RECORDS := 44         // offsetof(madt_t, apic_structs)
  const MAX_CPU := 16         // config.h:52
  const MAX_IOAPIC := 1       // config.h:57

  // A record, by its type byte: 0 and 1 have fixed layouts, the others are passed over.
  datatype Record =
    | LocalApic(processor: Byte, id: Byte, flags: nat)
    | IoApic(id: Byte, reserved: Byte, adr: nat, gsib: nat)
    | Other(kind: Byte, body: seq<Byte>)
  {
    predicate Valid()
    {
      match this
      case LocalApic(_, _, flags) => flags < Pow256(4)
      case IoApic(_, _, adr, gsib) => adr < Pow256(4) && gsib < Pow256(4)
      case Other(kind, body) => kind != 0 && kind != 1 && |body| < 254
    }

    // Type, length, fields.
    function Encode(): (r: seq<Byte>)
      requires Valid()
      ensures 2 <= |r| < 256
    {
      match this
      case LocalApic(processor, id, flags) => [0, 8, processor, id] + ToLe(flags, 4)
      case IoApic(id, reserved, adr, gsib) => [1, 12, id, reserved] + ToLe(adr, 4) + ToLe(gsib, 4)
      case Other(kind, body) => [kind, |body| + 2] + body
    }
  }

  // Bit 0 of the flags of a local APIC.
  predicate Enabled(r: Record)
  {
    r.LocalApic? && r.flags % 2 == 1
  }

  predicate AllValid(records: seq<Record>)
  {
    forall k | 0 <= k < |records| :: records[k].Valid()
  }

  function EncodeAll(records: seq<Record>): seq<Byte>
    requires AllValid(records)
  {
    if records == [] then [] else records[0].Encode() + EncodeAll(records[1..])
  }

  // signature and rest are the header fields before and behind its length; flags are those of the table.
  datatype Table = Table(signature: seq<Byte>, rest: seq<Byte>, lapicAdr: nat, flags: seq<Byte>, records: seq<Record>)
  {
    predicate Valid()
    {
      && |signature| == 4 && |rest| == 28 && lapicAdr < Pow256(4) && |flags| == 4 && AllValid(records)
      && RECORDS + |EncodeAll(records)| < Pow256(4)
    }

    function Serialise(): (r: seq<Byte>)
      requires Valid()
      ensures |r| == RECORDS + |EncodeAll(records)|
    {
      signature + ToLe(RECORDS + |EncodeAll(records)|, 4) + rest + ToLe(lapicAdr, 4) + flags + EncodeAll(records)
    }
  }

  // The enabled local APIC ids and the I/O APICs, in table order.
  function EnabledIds(records: seq<Record>): seq<nat>
  {
    if records == [] then [] else
    (if Enabled(records[0]) then [records[0].id as nat] else []) + EnabledIds(records[1..])
  }

  function IoApics(records: seq<Record>): seq<(nat, nat)>
  {
    if records == [] then [] else
    (if records[0].IoApic? then [(records[0].id as nat, records[0].adr)] else []) + IoApics(records[1..])
  }

  // Table order, record by record.
  lemma {:induction false} IdsConcat(a: seq<Record>, b: seq<Record>)
    ensures EnabledIds(a + b) == EnabledIds(a) + EnabledIds(b) && IoApics(a + b) == IoApics(a) + IoApics(b)
    decreases |a|
  {
    hide EnabledIds, IoApics, Enabled;
    if a == [] {
      assert a + b == b;
      NoIds();
    } else {
      assert (a + b)[0] == a[0] && (a + b)[1..] == a[1..] + b;
      IdsConcat(a[1..], b);
      FirstIds(a);
      FirstIds(a + b);
    }
  }

  lemma NoIds()
    ensures EnabledIds([]) == [] && IoApics([]) == []
  {
  }

  lemma FirstIds(a: seq<Record>)
    requires a != []
    ensures EnabledIds(a) == (if Enabled(a[0]) then [a[0].id as nat] else []) + EnabledIds(a[1..])
    ensures IoApics(a) == (if a[0].IoApic? then [(a[0].id as nat, a[0].adr)] else []) + IoApics(a[1..])
  {
    hide Enabled;
  }

  // A local APIC counts if bit 0 of its flags is set, and nothing else does.
  lemma IdsOfOne(r: Record)
    ensures EnabledIds([r])
            == match r case LocalApic(_, id, flags) => (if flags % 2 == 1 then [id as nat] else []) case _ => []
    ensures IoApics([r]) == match r case IoApic(id, _, adr, _) => [(id as nat, adr)] case _ => []
  {
    assert [r][1..] == [];
  }

  function Sum(s: seq<Byte>): nat
  {
    if s == [] then 0 else Sum(s[..|s| - 1]) + s[|s| - 1]
  }

  lemma SumSnoc(mem: seq<Byte>, p: nat, i: nat)
    requires p + i < |mem|
    ensures Sum(mem[p..p + i + 1]) == Sum(mem[p..p + i]) + mem[p + i]
  {
    assert mem[p..p + i + 1][..i] == mem[p..p + i];
  }

  lemma SumModulo(sum: nat, byte: Byte)
    ensures (sum % 256 + byte) % 256 == (sum + byte) % 256
  {
  }

  // Sums of parts add up, and a single byte is its own.
  lemma {:induction false} SumConcat(a: seq<Byte>, b: seq<Byte>)
    ensures Sum(a + b) == Sum(a) + Sum(b)
    decreases |b|
  {
    if b == [] {
      assert a + b == a;
    } else {
      assert (a + b)[..|a + b| - 1] == a + b[..|b| - 1];
      SumConcat(a, b[..|b| - 1]);
    }
  }

  lemma SumOne(x: Byte)
    ensures Sum([x]) == x
  {
    assert [x][..0] == [];
  }

  // The byte that completes any table to a good checksum, and no other does.
  lemma ChecksumByte(s: seq<Byte>, x: Byte)
    ensures Sum(s + [x]) % 256 == 0 <==> x == (256 - Sum(s) % 256) % 256
  {
    SumConcat(s, [x]);
    SumOne(x);
    SumModulo(Sum(s), x);
  }

  method CheckSum(mem: seq<Byte>, p: nat, length: nat) returns (sum: nat)
    requires p + length <= |mem|
    ensures sum == Sum(mem[p..p + length]) % 256
  {
    sum := 0;
    var i := 0;
    assert mem[p..p] == [];
    hide Sum;
    while i < length
      invariant i <= length && sum == Sum(mem[p..p + i]) % 256
    {
      SumSnoc(mem, p, i);
      SumModulo(Sum(mem[p..p + i]), mem[p + i]);
      sum := (sum + mem[p + i]) % 256;
      i := i + 1;
    }
  }

  // A field of four bytes at offset k.
  lemma FieldAt(mem: seq<Byte>, p: nat, e: seq<Byte>, k: nat, n: nat)
    requires p + |e| <= |mem| && mem[p..p + |e|] == e && n < Pow256(4)
    requires k + 4 <= |e| && e[k..k + 4] == ToLe(n, 4)
    ensures Le(mem, p + k, 4) == n
  {
    hide Le, ToLe;
    SubSlice(mem, p, e, k, k + 4);
    LeToLe(n, 4, mem, p + k);
  }

  // The fields at their offsets.
  lemma HeaderFields(mem: seq<Byte>, p: nat, t: Table)
    requires t.Valid() && p + |t.Serialise()| <= |mem| && mem[p..p + |t.Serialise()|] == t.Serialise()
    ensures Le(mem, p + 4, 4) == |t.Serialise()| && Le(mem, p + HEADER, 4) == t.lapicAdr
    ensures mem[p + RECORDS..p + |t.Serialise()|] == EncodeAll(t.records)
  {
    hide Le, ToLe, EncodeAll;
    var s := t.Serialise();
    assert s[4..8] == ToLe(|s|, 4);
    assert s[HEADER..HEADER + 4] == ToLe(t.lapicAdr, 4);
    assert s[RECORDS..|s|] == EncodeAll(t.records);
    FieldAt(mem, p, s, 4, |s|);
    FieldAt(mem, p, s, HEADER, t.lapicAdr);
    SubSlice(mem, p, s, RECORDS, |s|);
  }

  // The next record begins where the remaining ones do.
  lemma NextRecord(mem: seq<Byte>, p: nat, end: nat, left: seq<Record>)
    requires AllValid(left) && p < end <= |mem| && mem[p..end] == EncodeAll(left)
    ensures left != [] && left[0].Valid() && AllValid(left[1..]) && p + |left[0].Encode()| <= end
    ensures mem[p..p + |left[0].Encode()|] == left[0].Encode()
    ensures mem[p + |left[0].Encode()|..end] == EncodeAll(left[1..])
  {
    hide Record.Encode, EncodeAll;
    assert |mem[p..end]| > 0;
    FirstEncoded(left);
    var first := left[0].Encode();
    assert mem[p..end][..|first|] == first && mem[p..end][|first|..] == EncodeAll(left[1..]);
    assert mem[p..p + |first|] == mem[p..end][..|first|];
    assert mem[p + |first|..end] == mem[p..end][|first|..];
  }

  lemma FirstEncoded(left: seq<Record>)
    requires AllValid(left) && EncodeAll(left) != []
    ensures left != [] && left[0].Valid() && AllValid(left[1..])
    ensures EncodeAll(left) == left[0].Encode() + EncodeAll(left[1..])
  {
    hide Record.Encode;
  }

  lemma BytesOf(mem: seq<Byte>, p: nat, e: seq<Byte>, k: nat)
    requires p + |e| <= |mem| && mem[p..p + |e|] == e && k < |e|
    ensures mem[p + k] == e[k]
  {
    assert mem[p..p + |e|][k] == mem[p + k];
  }

  lemma LocalFields(mem: seq<Byte>, p: nat, r: Record)
    requires r.LocalApic? && r.Valid() && p + 8 <= |mem| && mem[p..p + |r.Encode()|] == r.Encode()
    ensures mem[p] == 0 && mem[p + 1] == |r.Encode()| && mem[p + 3] == r.id && Le(mem, p + 4, 4) == r.flags
  {
    hide Le, ToLe;
    var e: seq<Byte> := [0, 8, r.processor, r.id] + ToLe(r.flags, 4);
    assert e == r.Encode();
    FieldAt(mem, p, e, 4, r.flags);
    BytesOf(mem, p, e, 0);
    BytesOf(mem, p, e, 1);
    BytesOf(mem, p, e, 3);
  }

  lemma ChipFields(mem: seq<Byte>, p: nat, r: Record)
    requires r.IoApic? && r.Valid() && p + 12 <= |mem| && mem[p..p + |r.Encode()|] == r.Encode()
    ensures mem[p] == 1 && mem[p + 1] == |r.Encode()| && mem[p + 2] == r.id && Le(mem, p + 4, 4) == r.adr
  {
    hide Le, ToLe;
    var e: seq<Byte> := [1, 12, r.id, r.reserved] + ToLe(r.adr, 4) + ToLe(r.gsib, 4);
    assert e == r.Encode();
    FieldAt(mem, p, e, 4, r.adr);
    BytesOf(mem, p, e, 0);
    BytesOf(mem, p, e, 1);
    BytesOf(mem, p, e, 2);
  }

  lemma RecordFields(mem: seq<Byte>, p: nat, r: Record)
    requires r.Valid() && p + |r.Encode()| <= |mem| && mem[p..p + |r.Encode()|] == r.Encode()
    ensures mem[p + 1] == |r.Encode()|
    ensures mem[p] == 0 <==> r.LocalApic?
    ensures mem[p] == 1 <==> r.IoApic?
    ensures r.LocalApic? ==> p + 8 <= |mem| && mem[p + 3] == r.id && Le(mem, p + 4, 4) == r.flags
    ensures r.IoApic? ==> p + 12 <= |mem| && mem[p + 2] == r.id && Le(mem, p + 4, 4) == r.adr
  {
    hide Le, ToLe;
    match r
    case LocalApic(_, _, _) => LocalFields(mem, p, r);
    case IoApic(_, _, _, _) => ChipFields(mem, p, r);
    case Other(_, _) =>
      BytesOf(mem, p, r.Encode(), 0);
      BytesOf(mem, p, r.Encode(), 1);
  }

  // hw_info, as far as read_madt() fills it (info_struct.h:91-105).
  class HwInfo {
    var lapicAdr: nat
    var cpuCnt: nat
    const cpu: array<nat>
    var ioapicCnt: nat
    const ioapicId: array<nat>
    const ioapicAdr: array<nat>

    ghost predicate Shape()
    {
      && cpu.Length == MAX_CPU && ioapicId.Length == MAX_IOAPIC && ioapicAdr.Length == MAX_IOAPIC
      && cpu != ioapicId && cpu != ioapicAdr && ioapicId != ioapicAdr
    }

    ghost function Cpus(): seq<nat>
      requires cpuCnt <= cpu.Length
      reads this, cpu
    {
      cpu[..cpuCnt]
    }

    ghost function Chips(): seq<(nat, nat)>
      requires ioapicCnt <= ioapicId.Length && ioapicCnt <= ioapicAdr.Length
      reads this, ioapicId, ioapicAdr
    {
      seq(ioapicCnt, k requires 0 <= k < ioapicCnt && ioapicCnt <= ioapicId.Length && ioapicCnt <= ioapicAdr.Length
                     reads this, ioapicId, ioapicAdr => (ioapicId[k], ioapicAdr[k]))
    }

    constructor ()
      ensures Shape() && fresh(cpu) && fresh(ioapicId) && fresh(ioapicAdr)
    {
      cpu, ioapicId, ioapicAdr := new nat[MAX_CPU], new nat[MAX_IOAPIC], new nat[MAX_IOAPIC];
      lapicAdr, cpuCnt, ioapicCnt := 0, 0, 0;
    }

    // The table lies at p and says how long it is. If its checksum is right, it is one that the firmware laid out
    // by the specification, with no more enabled processors and I/O APICs than there is room for.
    method ReadMadt(mem: seq<Byte>, p: nat, ghost t: Table) returns (r: int)
      requires Shape() && p + 8 <= |mem| && p + Le(mem, p + 4, 4) <= |mem|
      requires Sum(mem[p..p + Le(mem, p + 4, 4)]) % 256 == 0 ==>
        && t.Valid() && mem[p..p + Le(mem, p + 4, 4)] == t.Serialise()
        && |EnabledIds(t.records)| <= MAX_CPU && |IoApics(t.records)| <= MAX_IOAPIC
      modifies this, cpu, ioapicId, ioapicAdr
      ensures r == 0 <==> Sum(mem[p..p + Le(mem, p + 4, 4)]) % 256 == 0
      // it reads what was serialised
      ensures r == 0 ==>
        && cpuCnt <= cpu.Length && ioapicCnt <= ioapicId.Length == ioapicAdr.Length
        && lapicAdr == t.lapicAdr && Cpus() == EnabledIds(t.records) && Chips() == IoApics(t.records)
        && cpu[..cpuCnt] == EnabledIds(t.records) && ioapicCnt == |IoApics(t.records)|
        && (forall k | 0 <= k < ioapicCnt :: (ioapicId[k], ioapicAdr[k]) == IoApics(t.records)[k])
      // or, for a bad checksum, changes nothing
      ensures r != 0 ==>
        && r == -1 && lapicAdr == old(lapicAdr) && cpuCnt == old(cpuCnt) && ioapicCnt == old(ioapicCnt)
        && cpu[..] == old(cpu[..]) && ioapicId[..] == old(ioapicId[..]) && ioapicAdr[..] == old(ioapicAdr[..])
    {
      hide Sum, Le, EncodeAll, EnabledIds, IoApics, HwInfo.Cpus, HwInfo.Chips, Table.Serialise;
      var length := Le(mem, p + 4, 4);
      var sum := CheckSum(mem, p, length);
      if sum != 0 {
        return -1;
      }
      HeaderFields(mem, p, t);
      lapicAdr := Le(mem, p + HEADER, 4);
      cpuCnt, ioapicCnt := 0, 0;
      ReadRecords(mem, p, length, t.records);
      Fields();
      return 0;
    }

    // The loop of boot32.c:425-451.
    method ReadRecords(mem: seq<Byte>, p: nat, length: nat, ghost records: seq<Record>)
      requires Shape() && RECORDS <= length && p + length <= |mem|
      requires AllValid(records) && mem[p + RECORDS..p + length] == EncodeAll(records)
      requires |EnabledIds(records)| <= MAX_CPU && |IoApics(records)| <= MAX_IOAPIC
      requires cpuCnt == ioapicCnt == 0
      modifies this`cpuCnt, this`ioapicCnt, cpu, ioapicId, ioapicAdr
      ensures cpuCnt <= cpu.Length && ioapicCnt <= ioapicId.Length
      ensures Cpus() == EnabledIds(records) && Chips() == IoApics(records)
    {
      hide EncodeAll, EnabledIds, IoApics, Le, HwInfo.Cpus, HwInfo.Chips, Enabled, Record.Encode;
      var i := 0;
      ghost var left := records;
      NothingRead();
      while RECORDS + i < length
        invariant RECORDS + i <= length && AllValid(left) && mem[p + RECORDS + i..p + length] == EncodeAll(left)
        invariant cpuCnt <= cpu.Length && ioapicCnt <= ioapicId.Length
        invariant Cpus() + EnabledIds(left) == EnabledIds(records) && Chips() + IoApics(left) == IoApics(records)
        decreases length - i
      {
        NextRecord(mem, p + RECORDS + i, p + length, left);
        RecordFields(mem, p + RECORDS + i, left[0]);
        assert left == [left[0]] + left[1..];
        ReadRecord(mem, p + RECORDS + i, left[0], left[1..], records);
        var sublen: nat := mem[p + RECORDS + i + 1];
        i := i + sublen;
        left := left[1..];
      }
      NothingLeft(left);
    }

    lemma Fields()
      requires cpuCnt <= cpu.Length && ioapicCnt <= ioapicId.Length && ioapicCnt <= ioapicAdr.Length
      ensures Cpus() == cpu[..cpuCnt] && |Chips()| == ioapicCnt
      ensures forall k | 0 <= k < ioapicCnt :: Chips()[k] == (ioapicId[k], ioapicAdr[k])
    {
    }

    lemma NothingRead()
      ensures cpuCnt == 0 && cpuCnt <= cpu.Length ==> Cpus() == []
      ensures ioapicCnt == 0 && ioapicCnt <= ioapicId.Length && ioapicCnt <= ioapicAdr.Length ==> Chips() == []
    {
    }

    // One record.
    method ReadRecord(mem: seq<Byte>, p: nat, ghost first: Record, ghost rest: seq<Record>, ghost records: seq<Record>)
      requires Shape() && cpuCnt <= cpu.Length && ioapicCnt <= ioapicId.Length
      requires first.Valid() && p + |first.Encode()| <= |mem| && mem[p..p + |first.Encode()|] == first.Encode()
      requires |EnabledIds(records)| <= MAX_CPU && |IoApics(records)| <= MAX_IOAPIC
      requires Cpus() + EnabledIds([first] + rest) == EnabledIds(records)
      requires Chips() + IoApics([first] + rest) == IoApics(records)
      modifies this`cpuCnt, this`ioapicCnt, cpu, ioapicId, ioapicAdr
      ensures cpuCnt <= cpu.Length && ioapicCnt <= ioapicId.Length
      ensures Cpus() + EnabledIds(rest) == EnabledIds(records)
      ensures Chips() + IoApics(rest) == IoApics(records)
    {
      assert ([first] + rest)[1..] == rest;
      RecordFields(mem, p, first);
      var subtype := mem[p];
      if subtype == 0 {
        if Le(mem, p + 4, 4) % 2 == 1 {
          cpu[cpuCnt] := mem[p + 3];
          cpuCnt := cpuCnt + 1;
          assert Cpus() == old(Cpus()) + [first.id as nat];
        }
      } else if subtype == 1 {
        ioapicId[ioapicCnt] := mem[p + 2];
        ioapicAdr[ioapicCnt] := Le(mem, p + 4, 4);
        ioapicCnt := ioapicCnt + 1;
        assert Chips() == old(Chips()) + [(first.id as nat, first.adr)];
      }
    }
  }

  lemma NothingLeft(left: seq<Record>)
    requires AllValid(left) && EncodeAll(left) == []
    ensures EnabledIds(left) == [] && IoApics(left) == []
  {
    RecordsShow(left);
  }

  lemma RecordsShow(left: seq<Record>)
    requires AllValid(left)
    ensures left != [] ==> EncodeAll(left) != []
  {
    assert left != [] ==> |EncodeAll(left)| == |left[0].Encode()| + |EncodeAll(left[1..])|;
  }
}
