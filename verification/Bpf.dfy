/**
  The classic-BPF assembler (internal/capture/bpf/bpf.go): match rules become blocks of
  instructions with symbolic jumps, and the linker turns them into a socket filter.
  The machine that runs the filter is Linux's: a load past the end of the frame drops it.
 */
module Bpf {
  import opened Bytes
  import opened Wrappers

  // ---------------------------------------------------------------- instructions

  const OP_LD_HALF_ABS: u16 := 0x28
  const OP_LD_BYTE_ABS: u16 := 0x30
  const OP_LD_HALF_IND: u16 := 0x48
  const OP_LDX_MSH_BYTE: u16 := 0xb1
  const OP_JEQ_K: u16 := 0x15
  const OP_JSET_K: u16 := 0x45
  const OP_RET_K: u16 := 0x06

  const OFF_ETHER_TYPE: u32 := 12
  const OFF_IPV4_HEADER: u32 := 14
  const OFF_IPV4_FRAG_OFF: u32 := 20
  const OFF_IPV4_PROTO: u32 := 23
  const OFF_IPV6_NEXT: u32 := 20
  const OFF_IPV6_SRC_PORT: u32 := 54
  const OFF_IPV6_DST_PORT: u32 := 56
  const REL_SRC_PORT: u32 := 14
  const REL_DST_PORT: u32 := 16
  const IPV4_FRAG_MASK: u32 := 0x1fff
  const ACCEPT_LENGTH: u32 := 262144
  const MAX_JUMP := 255

  const ETHERTYPE_IPV4: u16 := 0x0800
  const ETHERTYPE_IPV6: u16 := 0x86dd

  datatype Instruction = Instruction(code: u16, jt: byte, jf: byte, k: u32)

  /** A zero field leaves that part of the header open; a port can be either end's. */
  datatype Rule = Rule(etherType: u16, ipProto: byte, port: u16)

  /** Symbolic jump targets; a non-negative target is an index inside the block. */
  const TARGET_ACCEPT := -1
  const TARGET_NEXT := -2

  datatype Pending = Pending(code: u16, jt: int, jf: int, k: u32)
  type Block = seq<Pending>

  datatype Error = EmptyRule | TransportNeedsFamily | JumpOutOfRange(pos: int, target: int)

  // ---------------------------------------------------------------- the machine

  datatype Regs = Regs(a: u32, x: u32)
  datatype Machine = Running(pc: nat, regs: Regs) | Halted(ret: u32) | Stuck

  predicate IsLoad(code: u16) {
    code == OP_LD_HALF_ABS || code == OP_LD_BYTE_ABS || code == OP_LD_HALF_IND || code == OP_LDX_MSH_BYTE
  }

  predicate IsJump(code: u16) {
    code == OP_JEQ_K || code == OP_JSET_K
  }

  /** The registers after a load, or None when it reads past the end of the frame. */
  function Load(code: u16, k: u32, frame: seq<byte>, r: Regs): Option<Regs>
    requires IsLoad(code)
  {
    if code == OP_LD_HALF_ABS then
      if k + 2 <= |frame| then Some(r.(a := U16(frame, k))) else None
    else if code == OP_LD_BYTE_ABS then
      if k + 1 <= |frame| then Some(r.(a := frame[k])) else None
    else if code == OP_LD_HALF_IND then
      if r.x + k + 2 <= |frame| then Some(r.(a := U16(frame, r.x + k))) else None
    else
      if k + 1 <= |frame| then Some(r.(x := 4 * (frame[k] % 16))) else None
  }

  predicate Taken(code: u16, k: u32, r: Regs) {
    if code == OP_JEQ_K then r.a == k else And(r.a, k) != 0
  }

  function Step(prog: seq<Instruction>, frame: seq<byte>, s: Machine): (s': Machine)
    requires s.Running?
    ensures s'.Running? ==> s.pc < |prog| && s.pc < s'.pc
  {
    if s.pc >= |prog| then Stuck
    else
      var i := prog[s.pc];
      if IsLoad(i.code) then
        match Load(i.code, i.k, frame, s.regs)
        case None => Halted(0)
        case Some(r) => Running(s.pc + 1, r)
      else if IsJump(i.code) then
        Running(s.pc + 1 + (if Taken(i.code, i.k, s.regs) then i.jt else i.jf), s.regs)
      else if i.code == OP_RET_K then Halted(i.k)
      else Stuck
  }

  /** Runs the program until it halts or gets stuck; every jump goes forward. */
  function Exec(prog: seq<Instruction>, frame: seq<byte>, s: Machine): Machine
    decreases if s.Running? then 1 + (if s.pc < |prog| then |prog| - s.pc else 0) else 0
  {
    if s.Running? then Exec(prog, frame, Step(prog, frame, s)) else s
  }

  const START := Running(0, Regs(0, 0))

  /** The verdict of the kernel on a frame: the byte count the filter returns. */
  function Verdict(prog: seq<Instruction>, frame: seq<byte>): Machine {
    Exec(prog, frame, START)
  }

  /** The state after at most n steps. */
  function StepN(prog: seq<Instruction>, frame: seq<byte>, s: Machine, n: nat): Machine
    decreases n
  {
    if n == 0 || !s.Running? then s else StepN(prog, frame, Step(prog, frame, s), n - 1)
  }

  // ---------------------------------------------------------------- what a rule means

  /** A rule matches a frame, does not, or reads past its end, which drops the frame. */
  datatype Outcome = Match | NoMatch | Fault

  function Both(l: Outcome, r: Outcome): Outcome {
    if l.Match? then r else l
  }

  function Either(l: Outcome, r: Outcome): Outcome {
    if l.NoMatch? then r else l
  }

  function Bool(b: bool): Outcome {
    if b then Match else NoMatch
  }

  function HalfIs(f: seq<byte>, off: nat, v: u16): Outcome {
    if off + 2 <= |f| then Bool(U16(f, off) == v) else Fault
  }

  function ByteIs(f: seq<byte>, off: nat, v: byte): Outcome {
    if off + 1 <= |f| then Bool(f[off] == v) else Fault
  }

  /** Port is the source or destination port of an IPv4 first fragment. */
  function Ipv4PortMeaning(port: u16, f: seq<byte>): Outcome {
    if |f| < 22 then Fault
    else if U16(f, 20) % 0x2000 != 0 then NoMatch
    else
      var transport := 14 + 4 * (f[14] % 16);
      Either(HalfIs(f, transport, port), HalfIs(f, transport + 2, port))
  }

  function Ipv4Meaning(r: Rule, f: seq<byte>): Outcome {
    Both(HalfIs(f, 12, ETHERTYPE_IPV4),
         Both(if r.ipProto == 0 then Match else ByteIs(f, 23, r.ipProto),
              if r.port == 0 then Match else Ipv4PortMeaning(r.port, f)))
  }

  function Ipv6Meaning(r: Rule, f: seq<byte>): Outcome {
    Both(HalfIs(f, 12, ETHERTYPE_IPV6),
         Both(if r.ipProto == 0 then Match else ByteIs(f, 20, r.ipProto),
              if r.port == 0 then Match else Either(HalfIs(f, 54, r.port), HalfIs(f, 56, r.port))))
  }

  predicate ValidRule(r: Rule) {
    if r.ipProto == 0 && r.port == 0 then r.etherType != 0
    else r.etherType == 0 || r.etherType == ETHERTYPE_IPV4 || r.etherType == ETHERTYPE_IPV6
  }

  function RuleMeaning(r: Rule, f: seq<byte>): Outcome {
    if r.ipProto == 0 && r.port == 0 then HalfIs(f, 12, r.etherType)
    else if r.etherType == 0 then Either(Ipv4Meaning(r, f), Ipv6Meaning(r, f))
    else if r.etherType == ETHERTYPE_IPV4 then Ipv4Meaning(r, f)
    else Ipv6Meaning(r, f)
  }

  /** Rules are tried in order until one matches or faults. */
  function RulesMeaning(rules: seq<Rule>, f: seq<byte>): Outcome {
    if rules == [] then NoMatch else Either(RuleMeaning(rules[0], f), RulesMeaning(rules[1..], f))
  }

  /** No rules means no filter. */
  predicate Accepts(rules: seq<Rule>, f: seq<byte>) {
    rules == [] || RulesMeaning(rules, f).Match?
  }

  // ---------------------------------------------------------------- the compiler

  function AcceptAll(): seq<Instruction> {
    [Instruction(OP_RET_K, 0, 0, ACCEPT_LENGTH)]
  }

  function Plain(code: u16, k: u32): Pending {
    Pending(code, 0, 0, k)
  }

  function Ipv4Block(r: Rule): Block {
    var b := [Plain(OP_LD_HALF_ABS, OFF_ETHER_TYPE), Pending(OP_JEQ_K, 2, TARGET_NEXT, ETHERTYPE_IPV4)];
    var b := if r.ipProto == 0 then b else
               b + [Plain(OP_LD_BYTE_ABS, OFF_IPV4_PROTO),
                    Pending(OP_JEQ_K, if r.port == 0 then TARGET_ACCEPT else |b| + 2, TARGET_NEXT, r.ipProto)];
    if r.port == 0 then b else
      var n := |b|;
      b + [Plain(OP_LD_HALF_ABS, OFF_IPV4_FRAG_OFF),
           Pending(OP_JSET_K, TARGET_NEXT, n + 2, IPV4_FRAG_MASK),
           Plain(OP_LDX_MSH_BYTE, OFF_IPV4_HEADER),
           Plain(OP_LD_HALF_IND, REL_SRC_PORT),
           Pending(OP_JEQ_K, TARGET_ACCEPT, n + 5, r.port),
           Plain(OP_LD_HALF_IND, REL_DST_PORT),
           Pending(OP_JEQ_K, TARGET_ACCEPT, TARGET_NEXT, r.port)]
  }

  function Ipv6Block(r: Rule): Block {
    var b := [Plain(OP_LD_HALF_ABS, OFF_ETHER_TYPE), Pending(OP_JEQ_K, 2, TARGET_NEXT, ETHERTYPE_IPV6)];
    var b := if r.ipProto == 0 then b else
               b + [Plain(OP_LD_BYTE_ABS, OFF_IPV6_NEXT),
                    Pending(OP_JEQ_K, if r.port == 0 then TARGET_ACCEPT else |b| + 2, TARGET_NEXT, r.ipProto)];
    if r.port == 0 then b else
      var n := |b|;
      b + [Plain(OP_LD_HALF_ABS, OFF_IPV6_SRC_PORT),
           Pending(OP_JEQ_K, TARGET_ACCEPT, n + 2, r.port),
           Plain(OP_LD_HALF_ABS, OFF_IPV6_DST_PORT),
           Pending(OP_JEQ_K, TARGET_ACCEPT, TARGET_NEXT, r.port)]
  }

  function EtherTypeBlock(r: Rule): Block {
    [Plain(OP_LD_HALF_ABS, OFF_ETHER_TYPE), Pending(OP_JEQ_K, TARGET_ACCEPT, TARGET_NEXT, r.etherType)]
  }

  /** One block per address family the rule covers. */
  function BlocksFor(r: Rule): Result<seq<Block>, Error> {
    if r.ipProto == 0 && r.port == 0 then
      if r.etherType == 0 then Err(EmptyRule) else Ok([EtherTypeBlock(r)])
    else if r.etherType == 0 then Ok([Ipv4Block(r), Ipv6Block(r)])
    else if r.etherType == ETHERTYPE_IPV4 then Ok([Ipv4Block(r)])
    else if r.etherType == ETHERTYPE_IPV6 then Ok([Ipv6Block(r)])
    else Err(TransportNeedsFamily)
  }

  function AllBlocks(rules: seq<Rule>): Result<seq<Block>, Error> {
    if rules == [] then Ok([])
    else
      match BlocksFor(rules[0])
      case Err(e) => Err(e)
      case Ok(bs) =>
        match AllBlocks(rules[1..])
        case Err(e) => Err(e)
        case Ok(rest) => Ok(bs + rest)
  }

  function Resolve(target: int, start: int, accept: int, next: int): int {
    if target == TARGET_ACCEPT then accept else if target == TARGET_NEXT then next else start + target
  }

  function Offset(pos: int, target: int): Result<byte, Error> {
    var d := target - (pos + 1);
    if d < 0 || d > MAX_JUMP then Err(JumpOutOfRange(pos, target)) else Ok(d)
  }

  function Total(blocks: seq<Block>): nat {
    if blocks == [] then 0 else |blocks[0]| + Total(blocks[1..])
  }

  /** One instruction of the block at start, with its jumps resolved. */
  function LinkOne(p: Pending, pos: int, start: int, accept: int, next: int): Result<Instruction, Error> {
    if IsJump(p.code) then
      match Offset(pos, Resolve(p.jt, start, accept, next))
      case Err(e) => Err(e)
      case Ok(jt) =>
        match Offset(pos, Resolve(p.jf, start, accept, next))
        case Err(e) => Err(e)
        case Ok(jf) => Ok(Instruction(p.code, jt, jf, p.k))
    else Ok(Instruction(p.code, 0, 0, p.k))
  }

  function Prepend<T>(xs: seq<T>, r: Result<seq<T>, Error>): Result<seq<T>, Error> {
    match r
    case Ok(ys) => Ok(xs + ys)
    case Err(e) => Err(e)
  }

  function LinkBlock(b: Block, j: nat, start: int, accept: int, next: int): Result<seq<Instruction>, Error>
    requires j <= |b|
    decreases |b| - j
  {
    if j == |b| then Ok([])
    else
      match LinkOne(b[j], start + j, start, accept, next)
      case Err(e) => Err(e)
      case Ok(i) => Prepend([i], LinkBlock(b, j + 1, start, accept, next))
  }

  /** Where a failed block continues: the block after it, or the drop return after the last. */
  function NextStart(blocks: seq<Block>, start: nat, total: nat): nat
    requires blocks != []
  {
    if |blocks| > 1 then start + |blocks[0]| else total + 1
  }

  function LinkFrom(blocks: seq<Block>, start: nat, total: nat): Result<seq<Instruction>, Error> {
    if blocks == [] then Ok([Instruction(OP_RET_K, 0, 0, ACCEPT_LENGTH), Instruction(OP_RET_K, 0, 0, 0)])
    else
      match LinkBlock(blocks[0], 0, start, total, NextStart(blocks, start, total))
      case Err(e) => Err(e)
      case Ok(body) => Prepend(body, LinkFrom(blocks[1..], start + |blocks[0]|, total))
  }

  function Linked(blocks: seq<Block>): Result<seq<Instruction>, Error> {
    LinkFrom(blocks, 0, Total(blocks))
  }

  function Assembled(rules: seq<Rule>): Result<seq<Instruction>, Error> {
    if rules == [] then Ok(AcceptAll())
    else
      match AllBlocks(rules)
      case Err(e) => Err(e)
      case Ok(blocks) => Linked(blocks)
  }

  // ---------------------------------------------------------------- the assembler's loops

  method Assemble(rules: seq<Rule>) returns (r: Result<seq<Instruction>, Error>)
    ensures r == Assembled(rules)
  {
    if |rules| == 0 {
      return Ok(AcceptAll());
    }
    var blocks: seq<Block> := [];
    assert rules[0..] == rules;
    assert forall rest: seq<Block> :: blocks + rest == rest;
    for i := 0 to |rules|
      invariant AllBlocks(rules) ==
                match AllBlocks(rules[i..]) { case Ok(rest) => Ok(blocks + rest) case Err(e) => Err(e) }
    {
      assert rules[i..][1..] == rules[i + 1..];
      match BlocksFor(rules[i])
      case Err(e) =>
        return Err(e);
      case Ok(bs) =>
        ghost var before := blocks;
        blocks := blocks + bs;
        assert forall rest: seq<Block> :: before + (bs + rest) == blocks + rest;
    }
    assert AllBlocks(rules) == Ok(blocks + []);
    assert blocks + [] == blocks;
    r := Link(blocks);
  }

  /** Concatenates the blocks, resolves every symbolic jump and appends the two returns. */
  method Link(blocks: seq<Block>) returns (r: Result<seq<Instruction>, Error>)
    ensures r == Linked(blocks)
  {
    var total: nat := 0;
    for i := 0 to |blocks|
      invariant total + Total(blocks[i..]) == Total(blocks)
    {
      assert blocks[i..][1..] == blocks[i + 1..];
      total := total + |blocks[i]|;
    }
    var prog: seq<Instruction> := [];
    var start: nat := 0;
    assert blocks[0..] == blocks;
    assert forall body: seq<Instruction> :: prog + body == body;
    for i := 0 to |blocks|
      invariant Linked(blocks) == Prepend(prog, LinkFrom(blocks[i..], start, total))
    {
      var next := if i + 1 < |blocks| then start + |blocks[i]| else total + 1;
      ghost var before, rest := prog, LinkFrom(blocks[i + 1..], start + |blocks[i]|, total);
      assert blocks[i..][1..] == blocks[i + 1..];
      assert forall body: seq<Instruction> :: before + (body + (if rest.Ok? then rest.value else [])) == before + body + (if rest.Ok? then rest.value else []);
      for j := 0 to |blocks[i]|
        invariant Linked(blocks) ==
                  match LinkBlock(blocks[i], j, start, total, next) {
                    case Ok(body) => Prepend(prog + body, rest)
                    case Err(e) => Err(e)
                  }
      {
        match LinkOne(blocks[i][j], start + j, start, total, next)
        case Err(e) =>
          return Err(e);
        case Ok(instruction) =>
          ghost var old' := prog;
          prog := prog + [instruction];
          assert forall body: seq<Instruction> :: old' + ([instruction] + body) == prog + body;
      }
      assert prog + [] == prog;
      start := start + |blocks[i]|;
    }
    r := Ok(prog + [Instruction(OP_RET_K, 0, 0, ACCEPT_LENGTH), Instruction(OP_RET_K, 0, 0, 0)]);
  }
}
