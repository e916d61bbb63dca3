/** The shape of linked programs, and exactly which rule lists fit the 8-bit jumps. */
module BpfLinking {
  import opened Bytes
  import opened Wrappers
  import opened Bpf
  import opened BpfCorrectness

  // ---------------------------------------------------------------- programs halt

  /** Instruction i continues inside the program, strictly forward, or returns. */
  predicate StaysInside(prog: seq<Instruction>, i: nat)
    requires i < |prog|
  {
    || (IsLoad(prog[i].code) && i + 1 < |prog|)
    || (IsJump(prog[i].code) && i + 1 + prog[i].jt < |prog| && i + 1 + prog[i].jf < |prog|)
    || prog[i].code == OP_RET_K
  }

  predicate AllWellFormed(blocks: seq<Block>) {
    forall i :: 0 <= i < |blocks| ==> WellFormed(blocks[i])
  }

  lemma PlacedStaysInside(prog: seq<Instruction>, b: Block, start: nat, accept: nat, next: nat)
    requires WellFormed(b) && Placed(prog, b, start, accept, next)
    requires accept < |prog| && next < |prog|
    ensures forall i :: start <= i < start + |b| ==> StaysInside(prog, i)
  {
    forall i | start <= i < start + |b| ensures StaysInside(prog, i) {
      assert LinkOne(b[i - start], start + (i - start), start, accept, next) == Ok(prog[start + (i - start)]);
    }
  }

  lemma {:induction false} LinkedStaysInside(prog: seq<Instruction>, blocks: seq<Block>, start: nat, total: nat)
    requires AllWellFormed(blocks)
    requires start + Total(blocks) == total && |prog| == total + 2
    requires LinkFrom(blocks, start, total) == Ok(prog[start..])
    ensures forall i :: start <= i < |prog| ==> StaysInside(prog, i)
    decreases |blocks|
  {
    if blocks == [] {
      assert prog[total] == prog[start..][0] && prog[total + 1] == prog[start..][1];
    } else {
      var b, next := blocks[0], NextStart(blocks, start, total);
      LinkedSplit(prog, blocks, start, total);
      PlacedStaysInside(prog, b, start, total, next);
      LinkedStaysInside(prog, blocks[1..], start + |b|, total);
    }
  }

  lemma {:induction false} AllBlocksWellFormed(rules: seq<Rule>)
    requires AllBlocks(rules).Ok?
    ensures AllWellFormed(AllBlocks(rules).value)
  {
    var os := AllBlocksDenote(rules, []);
    var bs := AllBlocks(rules).value;
    assert forall i :: 0 <= i < |bs| ==> Denotes(bs[i], [], os[i]);
  }

  /** Assembled programs only jump forward and inside themselves. */
  lemma AssembledStaysInside(rules: seq<Rule>)
    requires Assembled(rules).Ok?
    ensures var prog := Assembled(rules).value;
            prog != [] && forall i :: 0 <= i < |prog| ==> StaysInside(prog, i)
  {
    if rules != [] {
      var blocks := AllBlocks(rules).value;
      AllBlocksWellFormed(rules);
      LinkedLength(blocks, 0, Total(blocks));
      var prog := Assembled(rules).value;
      assert prog[0..] == prog;
      LinkedStaysInside(prog, blocks, 0, Total(blocks));
    }
  }

  lemma {:induction false} InsideHalts(prog: seq<Instruction>, f: seq<byte>, pc: nat, r: Regs)
    requires pc < |prog| && forall i :: 0 <= i < |prog| ==> StaysInside(prog, i)
    ensures StepN(prog, f, Running(pc, r), |prog| - pc).Halted?
    decreases |prog| - pc
  {
    assert StaysInside(prog, pc);
    var s := Step(prog, f, Running(pc, r));
    if s.Running? {
      InsideHalts(prog, f, s.pc, s.regs);
      StepMonotone(prog, f, s, |prog| - s.pc, |prog| - pc - 1);
    }
  }

  /** More steps than needed change nothing. */
  lemma {:induction false} StepMonotone(prog: seq<Instruction>, f: seq<byte>, s: Machine, m: nat, n: nat)
    requires m <= n && !StepN(prog, f, s, m).Running?
    ensures StepN(prog, f, s, n) == StepN(prog, f, s, m)
    decreases m
  {
    if m > 0 && s.Running? {
      StepMonotone(prog, f, Step(prog, f, s), m - 1, n - 1);
    }
  }

  /** An assembled program never gets stuck: on every frame it halts at a return within its length. */
  lemma AssembledHalts(rules: seq<Rule>, f: seq<byte>)
    requires Assembled(rules).Ok?
    ensures var prog := Assembled(rules).value; StepN(prog, f, START, |prog|).Halted?
  {
    AssembledStaysInside(rules);
    InsideHalts(Assembled(rules).value, f, 0, START.regs);
  }

  // ---------------------------------------------------------------- capacity

  predicate JumpsToAccept(p: Pending) {
    IsJump(p.code) && (p.jt == TARGET_ACCEPT || p.jf == TARGET_ACCEPT)
  }

  /** The first accepting jump of the block, the longest jump it needs. */
  function FirstAccept(b: Block, j: nat): (r: nat)
    requires j <= |b|
    ensures j <= r <= |b|
    ensures r < |b| ==> JumpsToAccept(b[r])
    ensures forall m :: j <= m < r ==> !JumpsToAccept(b[m])
    decreases |b| - j
  {
    if j == |b| || JumpsToAccept(b[j]) then j else FirstAccept(b, j + 1)
  }

  const MAX_BLOCK := 11

  predicate Compact(b: Block) {
    WellFormed(b) && |b| <= MAX_BLOCK && FirstAccept(b, 0) < |b|
  }

  predicate AllCompact(blocks: seq<Block>) {
    forall i :: 0 <= i < |blocks| ==> Compact(blocks[i])
  }

  lemma {:induction false} LinkBlockFits(b: Block, j: nat, start: nat, accept: nat, next: nat)
    requires j <= |b|
    ensures LinkBlock(b, j, start, accept, next).Ok?
       <==> forall m :: j <= m < |b| ==> LinkOne(b[m], start + m, start, accept, next).Ok?
    decreases |b| - j
  {
    if j < |b| {
      LinkBlockFits(b, j + 1, start, accept, next);
    }
  }

  /** A short block links exactly when its first accepting jump is in range. */
  lemma CompactBlockFits(b: Block, start: nat, accept: nat, next: nat)
    requires Compact(b)
    requires start + |b| <= accept && start + |b| <= next <= start + |b| + 1
    ensures LinkBlock(b, 0, start, accept, next).Ok? <==> accept - (start + FirstAccept(b, 0) + 1) <= MAX_JUMP
  {
    LinkBlockFits(b, 0, start, accept, next);
    var first := FirstAccept(b, 0);
    if accept - (start + first + 1) <= MAX_JUMP {
      forall m | 0 <= m < |b| ensures LinkOne(b[m], start + m, start, accept, next).Ok? {
        if JumpsToAccept(b[m]) {
          assert m >= first;
        }
      }
    } else {
      assert !LinkOne(b[first], start + first, start, accept, next).Ok?;
    }
  }

  /** The first block decides: later accepting jumps are shorter. */
  lemma {:induction false} CompactBlocksFit(blocks: seq<Block>, start: nat, total: nat)
    requires blocks != [] && AllCompact(blocks) && start + Total(blocks) == total
    ensures LinkFrom(blocks, start, total).Ok? <==> total - (start + FirstAccept(blocks[0], 0) + 1) <= MAX_JUMP
    decreases |blocks|
  {
    var b := blocks[0];
    assert Compact(b);
    CompactBlockFits(b, start, total, NextStart(blocks, start, total));
    if |blocks| > 1 {
      assert AllCompact(blocks[1..]);
      CompactBlocksFit(blocks[1..], start + |b|, total);
    } else {
      assert blocks[1..] == [];
    }
  }

  // ---------------------------------------------------------------- capacity in terms of rules

  function V4Size(r: Rule): nat {
    2 + (if r.ipProto == 0 then 0 else 2) + (if r.port == 0 then 0 else 7)
  }

  function V6Size(r: Rule): nat {
    2 + (if r.ipProto == 0 then 0 else 2) + (if r.port == 0 then 0 else 4)
  }

  /** How many instructions the rule expands to. */
  function RuleSize(r: Rule): nat {
    if r.ipProto == 0 && r.port == 0 then 2
    else if r.etherType == 0 then V4Size(r) + V6Size(r)
    else if r.etherType == ETHERTYPE_IPV4 then V4Size(r)
    else V6Size(r)
  }

  function RulesSize(rules: seq<Rule>): nat {
    if rules == [] then 0 else RuleSize(rules[0]) + RulesSize(rules[1..])
  }

  /** The index of the first accepting jump in the code of the rule. */
  function RuleFirstAccept(r: Rule): nat {
    if r.ipProto == 0 && r.port == 0 then 1
    else if r.port == 0 then 3
    else if r.etherType == ETHERTYPE_IPV6 then (if r.ipProto == 0 then 3 else 5)
    else if r.ipProto == 0 then 6 else 8
  }

  predicate AllValid(rules: seq<Rule>) {
    forall r :: r in rules ==> ValidRule(r)
  }

  lemma {:induction false} FirstAcceptAt(b: Block, j: nat, k: nat)
    requires j <= k < |b| && JumpsToAccept(b[k]) && forall m :: j <= m < k ==> !JumpsToAccept(b[m])
    ensures FirstAccept(b, j) == k
    decreases k - j
  {
    if j < k {
      FirstAcceptAt(b, j + 1, k);
    }
  }

  lemma EtherTypeBlockCompact(r: Rule)
    ensures Compact(EtherTypeBlock(r)) && FirstAccept(EtherTypeBlock(r), 0) == 1
  {
    FirstAcceptAt(EtherTypeBlock(r), 0, 1);
    EtherTypeBlockDenotes(r, []);
  }

  lemma Ipv4BlockCompact(r: Rule)
    requires r.ipProto != 0 || r.port != 0
    ensures var b := Ipv4Block(r);
            && Compact(b) && |b| == V4Size(r)
            && FirstAccept(b, 0) == if r.port == 0 then 3 else if r.ipProto == 0 then 6 else 8
  {
    FirstAcceptAt(Ipv4Block(r), 0, if r.port == 0 then 3 else if r.ipProto == 0 then 6 else 8);
    Ipv4BlockDenotes(r, []);
  }

  lemma Ipv6BlockCompact(r: Rule)
    requires r.ipProto != 0 || r.port != 0
    ensures var b := Ipv6Block(r);
            && Compact(b) && |b| == V6Size(r)
            && FirstAccept(b, 0) == if r.port == 0 then 3 else if r.ipProto == 0 then 3 else 5
  {
    FirstAcceptAt(Ipv6Block(r), 0, if r.port == 0 then 3 else if r.ipProto == 0 then 3 else 5);
    Ipv6BlockDenotes(r, []);
  }

  lemma BlocksForCompact(r: Rule)
    ensures BlocksFor(r).Ok? <==> ValidRule(r)
    ensures BlocksFor(r).Ok? ==>
              var bs := BlocksFor(r).value;
              && bs != [] && AllCompact(bs) && Total(bs) == RuleSize(r)
              && FirstAccept(bs[0], 0) == RuleFirstAccept(r)
  {
    if BlocksFor(r).Ok? {
      var bs := BlocksFor(r).value;
      if r.ipProto == 0 && r.port == 0 {
        EtherTypeBlockCompact(r);
      } else {
        Ipv4BlockCompact(r);
        Ipv6BlockCompact(r);
      }
      assert Total(bs[1..]) == if |bs| == 1 then 0 else |bs[1]|;
    }
  }

  lemma {:induction false} TotalConcat(xs: seq<Block>, ys: seq<Block>)
    ensures Total(xs + ys) == Total(xs) + Total(ys)
  {
    if xs == [] {
      assert xs + ys == ys;
    } else {
      assert (xs + ys)[1..] == xs[1..] + ys;
      TotalConcat(xs[1..], ys);
    }
  }

  lemma {:induction false} AllBlocksCompact(rules: seq<Rule>)
    ensures AllBlocks(rules).Ok? <==> AllValid(rules)
    ensures AllBlocks(rules).Ok? ==>
              var bs := AllBlocks(rules).value;
              && AllCompact(bs) && Total(bs) == RulesSize(rules)
              && (rules != [] ==> bs != [] && FirstAccept(bs[0], 0) == RuleFirstAccept(rules[0]))
  {
    if rules == [] {
    } else {
      assert forall r :: r in rules <==> r == rules[0] || r in rules[1..];
      BlocksForCompact(rules[0]);
      AllBlocksCompact(rules[1..]);
      if AllBlocks(rules).Ok? {
        TotalConcat(BlocksFor(rules[0]).value, AllBlocks(rules[1..]).value);
      }
    }
  }

  /**
    Exactly the rule lists that assemble: every rule is valid, and the code is short enough for
    the first accepting jump to reach the accept return.
   */
  lemma AssemblesIff(rules: seq<Rule>)
    requires rules != []
    ensures Assembled(rules).Ok? <==> AllValid(rules) && RulesSize(rules) <= 256 + RuleFirstAccept(rules[0])
  {
    AllBlocksCompact(rules);
    if AllValid(rules) {
      CompactBlocksFit(AllBlocks(rules).value, 0, RulesSize(rules));
    }
  }

  /** Any valid rules expanding to at most 257 instructions assemble, whatever their order. */
  lemma Within257Assembles(rules: seq<Rule>)
    requires AllValid(rules) && RulesSize(rules) <= 257
    ensures Assembled(rules).Ok?
  {
    if rules != [] {
      AssemblesIff(rules);
    }
  }

  /** The bound is tight: 129 EtherType rules need one jump of 256. */
  lemma Beyond257Fails(n: nat, t: u16)
    requires n > 128 && t != 0
    ensures !Assembled(seq(n, i => Rule(t, 0, 0))).Ok?
  {
    var rules := seq(n, i => Rule(t, 0, 0));
    EtherTypeRulesSize(rules);
    AssemblesIff(rules);
  }

  lemma {:induction false} EtherTypeRulesSize(rules: seq<Rule>)
    requires forall r :: r in rules ==> r.ipProto == 0 && r.port == 0
    ensures RulesSize(rules) == 2 * |rules|
  {
    if rules == [] {
    } else {
      assert forall r :: r in rules[1..] ==> r in rules;
      EtherTypeRulesSize(rules[1..]);
    }
  }
}
