/**
 The seccomp filter that confines a Linux template plugin: a deny-list of system calls is
 compiled to classic BPF and serialised to the bytes bubblewrap loads. The interpreter is the
 one the repository's own tests judge the filter with.
 */
module Seccomp {
  import opened Wrappers
  import opened ByteStrings

  datatype Target = X8664 | Aarch64

  /** One `struct sock_filter`. */
  datatype Instruction = Instruction(code: U16, jt: Byte, jf: Byte, value: U32)

  const LD_W_ABS: U16 := 0x20
  const JMP_JEQ_K: U16 := 0x15
  const JMP_JGE_K: U16 := 0x35
  const RET_K: U16 := 0x06
  const DATA_NR_OFFSET: U32 := 0
  const DATA_ARCH_OFFSET: U32 := 4
  const RET_KILL_PROCESS: U32 := 0x8000_0000
  const RET_ERRNO_EPERM: U32 := 0x0005_0001
  const RET_ALLOW: U32 := 0x7fff_0000
  const X32_SYSCALL_BIT: U32 := 0x4000_0000

  function AuditArch(target: Target): U32 {
    match target
    case X8664 => 0xc000_003e
    case Aarch64 => 0xc000_00b7
  }

  /** The `as u32` cast of a system call number, which is a C `long`. */
  function Truncate(number: int): U32 {
    number % 0x1_0000_0000
  }

  // ---- What the filter is for -------------------------------------------------------------

  predicate Denied(deny: seq<int>, nr: U32) {
    exists number :: number in deny && Truncate(number) == nr
  }

  /** The verdict the sandbox relies on, stated without reference to any instruction. */
  function Verdict(target: Target, deny: seq<int>, architecture: U32, nr: U32): U32 {
    if architecture != AuditArch(target) then RET_KILL_PROCESS
    else if target.X8664? && nr >= X32_SYSCALL_BIT then RET_ERRNO_EPERM
    else if Denied(deny, nr) then RET_ERRNO_EPERM
    else RET_ALLOW
  }

  // ---- The machine ------------------------------------------------------------------------

  datatype Next = Goto(index: nat, accumulator: U32) | Halt(verdict: Option<U32>)

  /**
   One instruction at `index`. Halting with None stands for a panic of the interpreter: an unknown
   opcode or a load from anywhere but the two words seccomp offers.
   */
  function Step(instruction: Instruction, index: nat, accumulator: U32, architecture: U32, nr: U32): (next: Next)
    ensures next.Goto? ==> index < next.index
  {
    var Instruction(code, jt, jf, value) := instruction;
    if code == LD_W_ABS then
      if value == DATA_NR_OFFSET then Goto(index + 1, nr)
      else if value == DATA_ARCH_OFFSET then Goto(index + 1, architecture)
      else Halt(None)
    else if code == JMP_JEQ_K then Goto(index + 1 + if accumulator == value then jt else jf, accumulator)
    else if code == JMP_JGE_K then Goto(index + 1 + if accumulator >= value then jt else jf, accumulator)
    else if code == RET_K then Halt(Some(value))
    else Halt(None)
  }

  /** Execution from `index`. Running past the end is a panic too. */
  function Run(program: seq<Instruction>, index: nat, accumulator: U32, architecture: U32, nr: U32): Option<U32>
    decreases |program| - index
  {
    if index >= |program| then None
    else
      match Step(program[index], index, accumulator, architecture, nr)
      case Goto(next, loaded) => Run(program, next, loaded, architecture, nr)
      case Halt(verdict) => verdict
  }

  // ---- The compiler -----------------------------------------------------------------------

  function Prologue(target: Target): seq<Instruction> {
    [ Instruction(LD_W_ABS, 0, 0, DATA_ARCH_OFFSET),
      Instruction(JMP_JEQ_K, 1, 0, AuditArch(target)),
      Instruction(RET_K, 0, 0, RET_KILL_PROCESS),
      Instruction(LD_W_ABS, 0, 0, DATA_NR_OFFSET) ]
    + if target.X8664? then
        [ Instruction(JMP_JGE_K, 0, 1, X32_SYSCALL_BIT), Instruction(RET_K, 0, 0, RET_ERRNO_EPERM) ]
      else []
  }

  function Rules(deny: seq<int>): (r: seq<Instruction>)
    ensures |r| == 2 * |deny|
  {
    if deny == [] then []
    else
      Rules(deny[..|deny| - 1])
      + [ Instruction(JMP_JEQ_K, 0, 1, Truncate(deny[|deny| - 1])), Instruction(RET_K, 0, 0, RET_ERRNO_EPERM) ]
  }

  function Program(target: Target, deny: seq<int>): seq<Instruction> {
    Prologue(target) + Rules(deny) + [Instruction(RET_K, 0, 0, RET_ALLOW)]
  }

  lemma {:induction false} RuleAt(deny: seq<int>, i: nat)
    requires i < |deny|
    ensures Rules(deny)[2 * i] == Instruction(JMP_JEQ_K, 0, 1, Truncate(deny[i]))
    ensures Rules(deny)[2 * i + 1] == Instruction(RET_K, 0, 0, RET_ERRNO_EPERM)
  {
    if i == |deny| - 1 {
    } else {
      RuleAt(deny[..|deny| - 1], i);
    }
  }

  /** From rule i on, the machine denies exactly what the rest of the list denies. */
  lemma {:induction false} RunRules(target: Target, deny: seq<int>, i: nat, architecture: U32, nr: U32)
    requires i <= |deny|
    ensures Run(Program(target, deny), |Prologue(target)| + 2 * i, nr, architecture, nr)
         == Some(if Denied(deny[i..], nr) then RET_ERRNO_EPERM else RET_ALLOW)
    decreases |deny| - i
  {
    var program := Program(target, deny);
    var at := |Prologue(target)| + 2 * i;
    if i == |deny| {
      assert program[at] == Instruction(RET_K, 0, 0, RET_ALLOW);
    } else {
      RuleAt(deny, i);
      assert program[at] == Rules(deny)[2 * i];
      assert program[at + 1] == Rules(deny)[2 * i + 1];
      if nr == Truncate(deny[i]) {
        assert deny[i] in deny[i..];
        assert Denied(deny[i..], nr);
      } else {
        RunRules(target, deny, i + 1, architecture, nr);
        assert deny[i..] == [deny[i]] + deny[i + 1..];
        assert Denied(deny[i..], nr) == Denied(deny[i + 1..], nr);
      }
    }
  }

  lemma ProgramIsCorrect(target: Target, deny: seq<int>, architecture: U32, nr: U32)
    ensures Run(Program(target, deny), 0, 0, architecture, nr) == Some(Verdict(target, deny, architecture, nr))
  {
    var program := Program(target, deny);
    assert forall k :: 0 <= k < |Prologue(target)| ==> program[k] == Prologue(target)[k];
    if architecture != AuditArch(target) {
      assert Run(program, 2, architecture, architecture, nr) == Some(RET_KILL_PROCESS);
    } else {
      assert Run(program, 3, architecture, architecture, nr) == Run(program, 4, nr, architecture, nr);
      if target.X8664? && nr >= X32_SYSCALL_BIT {
        assert Run(program, 5, nr, architecture, nr) == Some(RET_ERRNO_EPERM);
      } else {
        assert deny[0..] == deny;
        RunRules(target, deny, 0, architecture, nr);
      }
    }
  }

  // ---- The byte format --------------------------------------------------------------------

  /** Both supported targets are little-endian, so this is also their native order. */
  function Encode(instruction: Instruction): (r: Bytes)
    ensures |r| == 8
  {
    LeBytes(instruction.code, 2) + [instruction.jt, instruction.jf] + LeBytes(instruction.value, 4)
  }

  function EncodeAll(program: seq<Instruction>): (r: Bytes)
    ensures |r| == 8 * |program|
  {
    if program == [] then [] else EncodeAll(program[..|program| - 1]) + Encode(program[|program| - 1])
  }

  function DecodeAt(bytes: Bytes, index: nat): Instruction
    requires 8 * index + 8 <= |bytes|
  {
    var b := bytes[8 * index..8 * index + 8];
    LeBounded(b[0..2]);
    LeBounded(b[4..8]);
    Widths();
    Instruction(LeValue(b[0..2]), b[2], b[3], LeValue(b[4..8]))
  }

  function DecodeAll(bytes: Bytes): (r: seq<Instruction>)
    requires |bytes| % 8 == 0
    ensures |r| == |bytes| / 8
  {
    seq(|bytes| / 8, i requires 0 <= i < |bytes| / 8 => DecodeAt(bytes, i))
  }

  lemma {:induction false} EncodedAt(program: seq<Instruction>, i: nat)
    requires i < |program|
    ensures EncodeAll(program)[8 * i..8 * i + 8] == Encode(program[i])
  {
    var shorter := program[..|program| - 1];
    if i == |shorter| {
    } else {
      EncodedAt(shorter, i);
      assert EncodeAll(program)[8 * i..8 * i + 8] == EncodeAll(shorter)[8 * i..8 * i + 8];
    }
  }

  lemma DecodeEncode(program: seq<Instruction>)
    ensures DecodeAll(EncodeAll(program)) == program
  {
    forall i | 0 <= i < |program|
      ensures DecodeAt(EncodeAll(program), i) == program[i]
    {
      EncodedAt(program, i);
      Widths();
      LeRoundTrip(program[i].code, 2);
      LeRoundTrip(program[i].value, 4);
      var b := Encode(program[i]);
      assert b[0..2] == LeBytes(program[i].code, 2);
      assert b[4..8] == LeBytes(program[i].value, 4);
    }
  }

  /** What running a byte program means: the interpreter first insists on whole instructions. */
  function Evaluate(program: Bytes, architecture: U32, nr: U32): Option<U32> {
    if |program| % 8 != 0 then None else Run(DecodeAll(program), 0, 0, architecture, nr)
  }

  /** The compiler is correct down to the bytes, for every deny-list and every machine input. */
  lemma FilterIsCorrect(target: Target, deny: seq<int>, architecture: U32, nr: U32)
    ensures Evaluate(EncodeAll(Program(target, deny)), architecture, nr)
         == Some(Verdict(target, deny, architecture, nr))
  {
    DecodeEncode(Program(target, deny));
    ProgramIsCorrect(target, deny, architecture, nr);
  }

  // ---- The source's loops -----------------------------------------------------------------

  method PluginSeccompProgram(target: Target, deny: seq<int>) returns (bytes: Bytes)
    ensures bytes == EncodeAll(Program(target, deny))
    ensures forall architecture: U32, nr: U32 ::
              Evaluate(bytes, architecture, nr) == Some(Verdict(target, deny, architecture, nr))
  {
    var instructions := BuildInstructions(target, deny);
    bytes := Serialize(instructions);
    forall architecture: U32, nr: U32
      ensures Evaluate(bytes, architecture, nr) == Some(Verdict(target, deny, architecture, nr))
    {
      FilterIsCorrect(target, deny, architecture, nr);
    }
  }

  method BuildInstructions(target: Target, deny: seq<int>) returns (instructions: seq<Instruction>)
    ensures instructions == Program(target, deny)
  {
    instructions := Prologue(target);
    for k := 0 to |deny|
      invariant instructions == Prologue(target) + Rules(deny[..k])
    {
      instructions := instructions + [Instruction(JMP_JEQ_K, 0, 1, Truncate(deny[k]))];
      instructions := instructions + [Instruction(RET_K, 0, 0, RET_ERRNO_EPERM)];
      assert deny[..k + 1][..k] == deny[..k];
    }
    assert deny[..|deny|] == deny;
    instructions := instructions + [Instruction(RET_K, 0, 0, RET_ALLOW)];
  }

  method Serialize(instructions: seq<Instruction>) returns (bytes: Bytes)
    ensures bytes == EncodeAll(instructions)
  {
    bytes := [];
    for k := 0 to |instructions|
      invariant bytes == EncodeAll(instructions[..k])
    {
      assert instructions[..k + 1][..k] == instructions[..k];
      var instruction := instructions[k];
      bytes := bytes + LeBytes(instruction.code, 2) + [instruction.jt] + [instruction.jf]
             + LeBytes(instruction.value, 4);
    }
    assert instructions[..|instructions|] == instructions;
  }

  method EvaluateClassicBpf(program: Bytes, architecture: U32, nr: U32) returns (verdict: Option<U32>)
    ensures verdict == Evaluate(program, architecture, nr)
  {
    if |program| % 8 != 0 {
      return None;
    }
    ghost var instructions := DecodeAll(program);
    var accumulator: U32 := 0;
    var index: nat := 0;
    while index < |program| / 8
      invariant Evaluate(program, architecture, nr) == Run(instructions, index, accumulator, architecture, nr)
      decreases |program| / 8 - index
    {
      var instruction := DecodeAt(program, index);
      ghost var next := Step(instruction, index, accumulator, architecture, nr);
      assert instructions[index] == instruction;
      if instruction.code == LD_W_ABS {
        if instruction.value == DATA_NR_OFFSET {
          accumulator := nr;
        } else if instruction.value == DATA_ARCH_OFFSET {
          accumulator := architecture;
        } else {
          return None;
        }
        index := index + 1;
      } else if instruction.code == JMP_JEQ_K {
        index := index + 1 + if accumulator == instruction.value then instruction.jt else instruction.jf;
      } else if instruction.code == JMP_JGE_K {
        index := index + 1 + if accumulator >= instruction.value then instruction.jt else instruction.jf;
      } else if instruction.code == RET_K {
        return Some(instruction.value);
      } else {
        return None;
      }
      assert next == Goto(index, accumulator);
    }
    return None;
  }

  // ---- Static ELF check -------------------------------------------------------------------

  const ELF_MAGIC: Bytes := [0x7f, 0x45, 0x4c, 0x46]
  const ELF_READ_LIMIT: nat := 1024 * 1024
  const PT_INTERP: nat := 3

  function ReadLe(bytes: Bytes, offset: nat, width: nat): Option<nat> {
    if offset + width <= |bytes| then Some(LeValue(bytes[offset..offset + width])) else None
  }

  datatype ProgramHeaders = ProgramHeaders(offset: nat, entrySize: nat, count: nat)

  /** Where the program-header table of a 32-bit (class 1) or 64-bit (class 2) file is. */
  function Headers(bytes: Bytes): Option<ProgramHeaders> {
    if |bytes| < 6 || bytes[..4] != ELF_MAGIC || bytes[5] != 1 then None
    else
      var fields :=
        if bytes[4] == 1 then (ReadLe(bytes, 28, 4), ReadLe(bytes, 42, 2), ReadLe(bytes, 44, 2))
        else if bytes[4] == 2 then (ReadLe(bytes, 32, 8), ReadLe(bytes, 54, 2), ReadLe(bytes, 56, 2))
        else (None, None, None);
      match fields
      case (Some(offset), Some(size), Some(count)) => Some(ProgramHeaders(offset, size, count))
      case _ => None
  }

  /** A plugin needs no interpreter: every declared program header can be read and none is PT_INTERP. */
  predicate IsStaticElf(file: Bytes) {
    var bytes := Prefix(file);
    match Headers(bytes)
    case None => false
    case Some(h) =>
      && 4 <= h.entrySize
      && h.count <= 4096
      && forall i: nat :: i < h.count ==> HeaderIsNot(bytes, h, i, PT_INTERP)
  }

  function Prefix(file: Bytes): Bytes {
    if |file| <= ELF_READ_LIMIT then file else file[..ELF_READ_LIMIT]
  }

  predicate HeaderIsNot(bytes: Bytes, h: ProgramHeaders, i: nat, kind: nat) {
    var field := ReadLe(bytes, h.offset + i * h.entrySize, 4);
    field.Some? && field.value != kind
  }

  method EnsureStaticElf(file: Bytes) returns (accepted: bool)
    ensures accepted <==> IsStaticElf(file)
  {
    var bytes := Prefix(file);
    var headers := Headers(bytes);
    if headers.None? || headers.value.entrySize < 4 || headers.value.count > 4096 {
      return false;
    }
    var h := headers.value;
    for index := 0 to h.count
      invariant forall i: nat :: i < index ==> HeaderIsNot(bytes, h, i, PT_INTERP)
    {
      var field := ReadLe(bytes, h.offset + index * h.entrySize, 4);
      if field.None? || field.value == PT_INTERP {
        assert !HeaderIsNot(bytes, h, index, PT_INTERP);
        return false;
      }
    }
    return true;
  }

  // ---- Written ELF files ------------------------------------------------------------------

  /** A program header: its type, and the rest of it. */
  datatype ProgramHeader = ProgramHeader(kind: U32, rest: Bytes)

  /** A little-endian ELF file, section by section of its header; `at` and the like are offsets. */
  datatype Elf = Elf(
    wide: bool, identRest: Bytes, typeMachineVersion: Bytes, entry: nat, sectionsAt: nat, flags: U32,
    headerSize: U16, sections: Bytes, gap: Bytes, entrySize: U16, table: seq<ProgramHeader>, more: Bytes)

  function HeaderLength(elf: Elf): nat {
    if elf.wide then 64 else 52
  }

  /** Where the program-header table starts and ends. */
  function TableStart(elf: Elf): nat {
    HeaderLength(elf) + |elf.gap|
  }

  function TableEnd(elf: Elf): nat {
    TableStart(elf) + |elf.table| * elf.entrySize
  }

  /** The parts that have a fixed length have it, and the table is within the first MiB of the file. */
  predicate WellFormed(elf: Elf) {
    && |elf.identRest| == 10 && |elf.typeMachineVersion| == 8 && |elf.sections| == 6
    && (forall i :: 0 <= i < |elf.table| ==> |elf.table[i].rest| + 4 == elf.entrySize)
    && |elf.table| < 0x1_0000
    && TableEnd(elf) <= 0x10_0000
  }

  function WriteTable(table: seq<ProgramHeader>): Bytes {
    if table == [] then [] else LeBytes(table[0].kind, 4) + table[0].rest + WriteTable(table[1..])
  }

  /** The file header of the ELF specification, then the program headers. */
  function WriteHeader(elf: Elf): Bytes {
    var width := if elf.wide then 8 else 4;
    [0x7f] + Ascii("ELF") + [if elf.wide then 2 else 1, 1] + elf.identRest + elf.typeMachineVersion
    + LeBytes(elf.entry, width) + LeBytes(TableStart(elf), width) + LeBytes(elf.sectionsAt, width)
    + LeBytes(elf.flags, 4) + LeBytes(elf.headerSize, 2) + LeBytes(elf.entrySize, 2) + LeBytes(|elf.table|, 2)
    + elf.sections
  }

  function WriteElf(elf: Elf): Bytes {
    WriteHeader(elf) + elf.gap + WriteTable(elf.table) + elf.more
  }

  lemma {:induction false} TableAt(table: seq<ProgramHeader>, size: nat, i: nat)
    requires (forall k :: 0 <= k < |table| ==> |table[k].rest| + 4 == size) && i < |table|
    ensures |WriteTable(table)| == |table| * size && i * size + 4 <= |table| * size
    ensures WriteTable(table)[i * size..i * size + 4] == LeBytes(table[i].kind, 4)
    decreases |table|
  {
    hide LeBytes;
    var first, rest := LeBytes(table[0].kind, 4) + table[0].rest, table[1..];
    assert WriteTable(table) == first + WriteTable(rest) && |first| == size;
    TableLength(rest, size);
    Multiples(|table|, i, size);
    if i > 0 {
      TableAt(rest, size, i - 1);
      var at := (i - 1) * size;
      assert i * size == at + size;
      assert (first + WriteTable(rest))[at + size..at + size + 4] == WriteTable(rest)[at..at + 4];
    } else {
      assert i * size == 0;
      assert (first + WriteTable(rest))[0..4] == LeBytes(table[0].kind, 4);
    }
  }

  lemma {:induction false} Multiples(n: nat, i: nat, size: nat)
    requires i < n
    ensures n * size == (n - 1) * size + size && i * size + size <= n * size
    decreases n
  {
    if i < n - 1 {
      Multiples(n - 1, i, size);
    }
  }

  lemma {:induction false} TableLength(table: seq<ProgramHeader>, size: nat)
    requires forall k :: 0 <= k < |table| ==> |table[k].rest| + 4 == size
    ensures |WriteTable(table)| == |table| * size
  {
    hide LeBytes;
    if table == [] {
    } else {
      TableLength(table[1..], size);
      Multiples(|table|, 0, size);
    }
  }

  /** Each part of a concatenation is a slice of it. */
  lemma PartsAreSlices(start: Bytes, offset: Bytes, middle: Bytes, size: Bytes, count: Bytes, last: Bytes)
    ensures var s, o, m, z := |start|, |start| + |offset|, |start| + |offset| + |middle|,
                              |start| + |offset| + |middle| + |size|;
            var all := start + offset + middle + size + count + last;
            && |all| == z + |count| + |last| && all[..s] == start && all[s..o] == offset
            && all[m..z] == size && all[z..z + |count|] == count
  {
  }

  lemma Regroup(a: Bytes, b: Bytes, c: Bytes, d: Bytes)
    ensures a + b + c + d == a + (b + c + d)
  {
  }

  /** The fields of a written header are where a reader looks for them. */
  lemma HeaderHolds(elf: Elf)
    requires WellFormed(elf)
    ensures var header, n := WriteHeader(elf), |elf.table|;
            var offset := TableStart(elf);
            && |header| == HeaderLength(elf) && header[..4] == ELF_MAGIC
            && header[4] == (if elf.wide then 2 else 1) && header[5] == 1
            && (elf.wide ==> header[32..40] == LeBytes(offset, 8) && header[54..56] == LeBytes(elf.entrySize, 2)
                             && header[56..58] == LeBytes(n, 2))
            && (!elf.wide ==> header[28..32] == LeBytes(offset, 4) && header[42..44] == LeBytes(elf.entrySize, 2)
                              && header[44..46] == LeBytes(n, 2))
  {
    hide LeBytes;
    var width := if elf.wide then 8 else 4;
    var start := [0x7f] + Ascii("ELF") + [if elf.wide then 2 else 1, 1] + elf.identRest + elf.typeMachineVersion
                 + LeBytes(elf.entry, width);
    var offset, sectionsAt := LeBytes(TableStart(elf), width), LeBytes(elf.sectionsAt, width);
    var flags, headerSize := LeBytes(elf.flags, 4), LeBytes(elf.headerSize, 2);
    var size, count := LeBytes(elf.entrySize, 2), LeBytes(|elf.table|, 2);
    Regroup(start + offset, sectionsAt, flags, headerSize);
    PartsAreSlices(start, offset, sectionsAt + flags + headerSize, size, count, elf.sections);
    assert WriteHeader(elf) == start + offset + (sectionsAt + flags + headerSize) + size + count + elf.sections;
    StartHolds(elf, start);
    assert WriteHeader(elf)[..|start|] == start;
  }

  lemma StartHolds(elf: Elf, start: Bytes)
    requires WellFormed(elf)
    requires start == [0x7f] + Ascii("ELF") + [if elf.wide then 2 else 1, 1] + elf.identRest
                      + elf.typeMachineVersion + LeBytes(elf.entry, if elf.wide then 8 else 4)
    ensures |start| == (if elf.wide then 32 else 28)
    ensures start[..4] == ELF_MAGIC && start[4] == (if elf.wide then 2 else 1) && start[5] == 1
  {
    hide LeBytes;
    assert start[..4] == [0x7f] + Ascii("ELF");
  }

  lemma ReadWritten(bytes: Bytes, at: nat, width: nat, v: nat)
    requires at + width <= |bytes| && bytes[at..at + width] == LeBytes(v, width) && v < Pow256(width)
    ensures ReadLe(bytes, at, width) == Some(v)
  {
    hide LeBytes, LeValue;
    LeRoundTrip(v, width);
  }

  /** The bytes begin as the file was written, up to the end of the table. */
  predicate Begins(elf: Elf, bytes: Bytes) {
    TableEnd(elf) <= |bytes| && bytes[..TableEnd(elf)] == WriteHeader(elf) + elf.gap + WriteTable(elf.table)
  }

  lemma BeginsAlike(bytes: Bytes, end: nat, header: Bytes, rest: Bytes)
    requires end <= |bytes| && bytes[..end] == header + rest
    ensures forall a, b :: 0 <= a <= b <= |header| ==> bytes[a..b] == header[a..b]
  {
    forall a, b | 0 <= a <= b <= |header|
      ensures bytes[a..b] == header[a..b]
    {
      assert bytes[a..b] == bytes[..end][a..b];
    }
  }

  /** The reader finds the table of a written file. */
  lemma TableIsFound(elf: Elf)
    requires WellFormed(elf)
    ensures Begins(elf, Prefix(WriteElf(elf)))
    ensures Headers(Prefix(WriteElf(elf))) == Some(ProgramHeaders(TableStart(elf), elf.entrySize, |elf.table|))
  {
    hide LeBytes, WriteHeader, WriteTable, Pow256, ReadLe;
    HeaderHolds(elf);
    TableLength(elf.table, elf.entrySize);
    Widths();
    var header, offset := WriteHeader(elf), TableStart(elf);
    var file, bytes := WriteElf(elf), Prefix(WriteElf(elf));
    var end := TableEnd(elf);
    assert file[..end] == header + elf.gap + WriteTable(elf.table);
    assert bytes[..end] == file[..end];
    BeginsAlike(bytes, end, header, elf.gap + WriteTable(elf.table));
    assert bytes[..4] == header[..4] && bytes[4] == header[4] && bytes[5] == header[5];
    if elf.wide {
      ReadWritten(bytes, 32, 8, offset);
      ReadWritten(bytes, 54, 2, elf.entrySize);
      ReadWritten(bytes, 56, 2, |elf.table|);
    } else {
      ReadWritten(bytes, 28, 4, offset);
      ReadWritten(bytes, 42, 2, elf.entrySize);
      ReadWritten(bytes, 44, 2, |elf.table|);
    }
  }

  /** A written file is accepted exactly when none of its program headers asks for an interpreter. */
  lemma WrittenElfIsStaticIff(elf: Elf)
    requires WellFormed(elf) && 1 <= |elf.table| <= 4096
    ensures IsStaticElf(WriteElf(elf)) <==> forall i :: 0 <= i < |elf.table| ==> elf.table[i].kind != 3
  {
    hide LeBytes, WriteHeader, WriteTable, Pow256, ReadLe, Headers, WriteElf, Prefix, Begins;
    TableIsFound(elf);
    Widths();
    var bytes := Prefix(WriteElf(elf));
    var h := ProgramHeaders(TableStart(elf), elf.entrySize, |elf.table|);
    assert |elf.table[0].rest| + 4 == elf.entrySize;
    forall i: nat | i < |elf.table|
      ensures HeaderIsNot(bytes, h, i, PT_INTERP) <==> elf.table[i].kind != 3
    {
      TableAt(elf.table, elf.entrySize, i);
      TypeIsRead(elf, bytes, i);
    }
  }

  lemma TypeIsRead(elf: Elf, bytes: Bytes, i: nat)
    requires WellFormed(elf) && i < |elf.table| && Begins(elf, bytes)
    ensures ReadLe(bytes, TableStart(elf) + i * elf.entrySize, 4) == Some(elf.table[i].kind)
  {
    hide LeBytes, WriteHeader, WriteTable, Pow256, ReadLe, TableEnd, TableStart, WellFormed;
    SameStart(elf);
    TableAt(elf.table, elf.entrySize, i);
    ReadInTable(bytes, WriteHeader(elf) + elf.gap, WriteTable(elf.table), i * elf.entrySize, elf.table[i].kind);
  }

  lemma ReadInTable(bytes: Bytes, before: Bytes, table: Bytes, at: nat, kind: U32)
    requires |before| + |table| <= |bytes| && bytes[..|before| + |table|] == before + table
    requires at + 4 <= |table| && table[at..at + 4] == LeBytes(kind, 4)
    ensures ReadLe(bytes, |before| + at, 4) == Some(kind)
  {
    hide LeBytes, Pow256, ReadLe;
    Widths();
    SliceWithin(bytes, before, table, at);
    ReadWritten(bytes, |before| + at, 4, kind);
  }

  lemma SameStart(elf: Elf)
    requires WellFormed(elf)
    ensures |WriteHeader(elf) + elf.gap| == TableStart(elf)
    ensures TableEnd(elf) == TableStart(elf) + |WriteTable(elf.table)|
    ensures forall k :: 0 <= k < |elf.table| ==> |elf.table[k].rest| + 4 == elf.entrySize
  {
    hide WriteHeader, WriteTable;
    HeaderHolds(elf);
    TableLength(elf.table, elf.entrySize);
  }

  lemma SliceWithin(bytes: Bytes, before: Bytes, table: Bytes, at: nat)
    requires |before| + |table| <= |bytes| && bytes[..|before| + |table|] == before + table && at + 4 <= |table|
    ensures bytes[|before| + at..|before| + at + 4] == table[at..at + 4]
  {
    assert bytes[|before| + at..|before| + at + 4] == bytes[..|before| + |table|][|before| + at..|before| + at + 4];
  }
}
