/**
  The assembler is correct: a linked program gives every frame the verdict of its rules,
  and the order of the rules matters exactly when one of them faults and another matches.
 */
module BpfCorrectness {
  import opened Bytes
  import opened Wrappers
  import opened Bpf

  // ---------------------------------------------------------------- blocks with symbolic jumps

  predicate TargetOk(t: int, j: nat, n: nat) {
    t == TARGET_ACCEPT || t == TARGET_NEXT || j < t < n
  }

  /** Every path through the block moves forward and leaves it by a symbolic target. */
  predicate WellFormed(b: Block) {
    && b != []
    && forall j :: 0 <= j < |b| ==>
         || (IsLoad(b[j].code) && j + 1 < |b|)
         || (IsJump(b[j].code) && TargetOk(b[j].jt, j, |b|) && TargetOk(b[j].jf, j, |b|))
  }

  /** Runs a block from index j, before its jumps are resolved. */
  function Eval(b: Block, f: seq<byte>, j: nat, r: Regs): Outcome
    requires WellFormed(b) && j < |b|
    decreases |b| - j
  {
    var p := b[j];
    if IsLoad(p.code) then
      match Load(p.code, p.k, f, r)
      case None => Fault
      case Some(r') => Eval(b, f, j + 1, r')
    else
      var t := if Taken(p.code, p.k, r) then p.jt else p.jf;
      if t == TARGET_ACCEPT then Match
      else if t == TARGET_NEXT then NoMatch
      else Eval(b, f, t, r)
  }

  /** The block gives the frame outcome o whatever the registers hold when it starts. */
  ghost predicate Denotes(b: Block, f: seq<byte>, o: Outcome) {
    WellFormed(b) && forall r :: Eval(b, f, 0, r) == o
  }

  lemma EtherTypeBlockDenotes(r: Rule, f: seq<byte>)
    ensures Denotes(EtherTypeBlock(r), f, HalfIs(f, 12, r.etherType))
  {
    var b := EtherTypeBlock(r);
    forall s ensures Eval(b, f, 0, s) == HalfIs(f, 12, r.etherType) {
      if 14 <= |f| {
        var s1 := s.(a := U16(f, 12));
        assert Load(b[0].code, b[0].k, f, s) == Some(s1);
        assert Eval(b, f, 1, s1) == Bool(U16(f, 12) == r.etherType);
      }
    }
  }

  /** The port check of an IPv4 block, which starts at index n. */
  lemma Ipv4PortsDenote(b: Block, n: nat, port: u16, f: seq<byte>, s: Regs)
    requires WellFormed(b) && |b| == n + 7
    requires b[n] == Plain(OP_LD_HALF_ABS, OFF_IPV4_FRAG_OFF)
    requires b[n + 1] == Pending(OP_JSET_K, TARGET_NEXT, n + 2, IPV4_FRAG_MASK)
    requires b[n + 2] == Plain(OP_LDX_MSH_BYTE, OFF_IPV4_HEADER)
    requires b[n + 3] == Plain(OP_LD_HALF_IND, REL_SRC_PORT)
    requires b[n + 4] == Pending(OP_JEQ_K, TARGET_ACCEPT, n + 5, port)
    requires b[n + 5] == Plain(OP_LD_HALF_IND, REL_DST_PORT)
    requires b[n + 6] == Pending(OP_JEQ_K, TARGET_ACCEPT, TARGET_NEXT, port)
    ensures Eval(b, f, n, s) == Ipv4PortMeaning(port, f)
  {
    if |f| >= 22 {
      var frag := U16(f, 20);
      var s1 := s.(a := frag);
      assert Pow2(13) == 0x2000;
      AndLowMask(frag, 13);
      assert Eval(b, f, n, s) == Eval(b, f, n + 1, s1);
      if frag % 0x2000 == 0 {
        var hl := 4 * (f[14] % 16);
        var s2 := s1.(x := hl);
        assert Eval(b, f, n + 1, s1) == Eval(b, f, n + 2, s1) == Eval(b, f, n + 3, s2);
        Ipv4PortLoads(b, n, port, f, s2);
      }
    }
  }

  lemma Ipv4PortLoads(b: Block, n: nat, port: u16, f: seq<byte>, s: Regs)
    requires WellFormed(b) && |b| == n + 7
    requires b[n + 3] == Plain(OP_LD_HALF_IND, REL_SRC_PORT)
    requires b[n + 4] == Pending(OP_JEQ_K, TARGET_ACCEPT, n + 5, port)
    requires b[n + 5] == Plain(OP_LD_HALF_IND, REL_DST_PORT)
    requires b[n + 6] == Pending(OP_JEQ_K, TARGET_ACCEPT, TARGET_NEXT, port)
    ensures Eval(b, f, n + 3, s) == Either(HalfIs(f, 14 + s.x, port), HalfIs(f, 16 + s.x, port))
  {
    if s.x + 16 <= |f| {
      var s3 := s.(a := U16(f, s.x + 14));
      assert Eval(b, f, n + 3, s) == Eval(b, f, n + 4, s3);
      if s3.a != port {
        assert Eval(b, f, n + 4, s3) == Eval(b, f, n + 5, s3);
        if s.x + 18 <= |f| {
          var s4 := s3.(a := U16(f, s.x + 16));
          assert Eval(b, f, n + 5, s3) == Eval(b, f, n + 6, s4);
        }
      }
    }
  }

  lemma Ipv4BlockDenotes(r: Rule, f: seq<byte>)
    requires r.ipProto != 0 || r.port != 0
    ensures Denotes(Ipv4Block(r), f, Ipv4Meaning(r, f))
  {
    var b := Ipv4Block(r);
    assert WellFormed(b);
    forall s ensures Eval(b, f, 0, s) == Ipv4Meaning(r, f) {
      if 14 <= |f| {
        var s1 := s.(a := U16(f, 12));
        assert Eval(b, f, 0, s) == Eval(b, f, 1, s1);
        if s1.a == ETHERTYPE_IPV4 {
          assert Eval(b, f, 1, s1) == Eval(b, f, 2, s1);
          if r.ipProto == 0 {
            Ipv4PortsDenote(b, 2, r.port, f, s1);
          } else if 24 <= |f| {
            var s2 := s1.(a := f[23]);
            assert Eval(b, f, 2, s1) == Eval(b, f, 3, s2);
            if s2.a == r.ipProto && r.port != 0 {
              assert Eval(b, f, 3, s2) == Eval(b, f, 4, s2);
              Ipv4PortsDenote(b, 4, r.port, f, s2);
            }
          }
        }
      }
    }
  }

  lemma Ipv6PortsDenote(r: Rule, f: seq<byte>, s: Regs)
    requires r.port != 0
    ensures WellFormed(Ipv6Block(r))
    ensures Eval(Ipv6Block(r), f, if r.ipProto == 0 then 2 else 4, s)
         == Either(HalfIs(f, 54, r.port), HalfIs(f, 56, r.port))
  {
    var b := Ipv6Block(r);
    var n := if r.ipProto == 0 then 2 else 4;
    if |f| >= 56 {
      var s1 := s.(a := U16(f, 54));
      assert Eval(b, f, n, s) == Eval(b, f, n + 1, s1);
      if s1.a != r.port {
        assert Eval(b, f, n + 1, s1) == Eval(b, f, n + 2, s1);
        if |f| >= 58 {
          var s2 := s1.(a := U16(f, 56));
          assert Eval(b, f, n + 2, s1) == Eval(b, f, n + 3, s2);
        }
      }
    }
  }

  lemma Ipv6BlockDenotes(r: Rule, f: seq<byte>)
    requires r.ipProto != 0 || r.port != 0
    ensures Denotes(Ipv6Block(r), f, Ipv6Meaning(r, f))
  {
    var b := Ipv6Block(r);
    assert WellFormed(b);
    forall s ensures Eval(b, f, 0, s) == Ipv6Meaning(r, f) {
      if 14 <= |f| {
        var s1 := s.(a := U16(f, 12));
        assert Eval(b, f, 0, s) == Eval(b, f, 1, s1);
        if s1.a == ETHERTYPE_IPV6 {
          assert Eval(b, f, 1, s1) == Eval(b, f, 2, s1);
          if r.ipProto == 0 {
            Ipv6PortsDenote(r, f, s1);
          } else if 21 <= |f| {
            var s2 := s1.(a := f[20]);
            assert Eval(b, f, 2, s1) == Eval(b, f, 3, s2);
            if s2.a == r.ipProto && r.port != 0 {
              assert Eval(b, f, 3, s2) == Eval(b, f, 4, s2);
              Ipv6PortsDenote(r, f, s2);
            }
          }
        }
      }
    }
  }

  // ---------------------------------------------------------------- lists of blocks

  function Fold(os: seq<Outcome>): Outcome {
    if os == [] then NoMatch else Either(os[0], Fold(os[1..]))
  }

  /** The outcomes of the blocks, one by one. */
  ghost predicate AllDenote(blocks: seq<Block>, f: seq<byte>, os: seq<Outcome>) {
    |os| == |blocks| && forall i :: 0 <= i < |blocks| ==> Denotes(blocks[i], f, os[i])
  }

  lemma {:induction false} FoldConcat(xs: seq<Outcome>, ys: seq<Outcome>)
    ensures Fold(xs + ys) == Either(Fold(xs), Fold(ys))
  {
    if xs == [] {
      assert xs + ys == ys;
    } else {
      assert (xs + ys)[1..] == xs[1..] + ys;
      FoldConcat(xs[1..], ys);
    }
  }

  lemma FoldOne(o: Outcome)
    ensures Fold([o]) == o
  {
    assert Fold([o][1..]) == NoMatch;
  }

  lemma BlocksForDenote(r: Rule, f: seq<byte>) returns (os: seq<Outcome>)
    requires BlocksFor(r).Ok?
    ensures AllDenote(BlocksFor(r).value, f, os) && Fold(os) == RuleMeaning(r, f)
  {
    if r.ipProto == 0 && r.port == 0 {
      EtherTypeBlockDenotes(r, f);
      os := [HalfIs(f, 12, r.etherType)];
      assert Fold(os[1..]) == NoMatch;
    } else {
      Ipv4BlockDenotes(r, f);
      Ipv6BlockDenotes(r, f);
      var o4, o6 := Ipv4Meaning(r, f), Ipv6Meaning(r, f);
      FoldOne(o4);
      FoldOne(o6);
      if r.etherType == 0 {
        os := [o4, o6];
        FoldConcat([o4], [o6]);
      } else {
        os := [if r.etherType == ETHERTYPE_IPV4 then o4 else o6];
      }
    }
  }

  lemma AllDenoteConcat(bs: seq<Block>, cs: seq<Block>, f: seq<byte>, os: seq<Outcome>, ps: seq<Outcome>)
    requires AllDenote(bs, f, os) && AllDenote(cs, f, ps)
    ensures AllDenote(bs + cs, f, os + ps)
  {
  }

  lemma {:induction false} AllBlocksDenote(rules: seq<Rule>, f: seq<byte>) returns (os: seq<Outcome>)
    requires AllBlocks(rules).Ok?
    ensures AllDenote(AllBlocks(rules).value, f, os) && Fold(os) == RulesMeaning(rules, f)
  {
    if rules == [] {
      os := [];
    } else {
      var os0 := BlocksForDenote(rules[0], f);
      var os1 := AllBlocksDenote(rules[1..], f);
      FoldConcat(os0, os1);
      os := os0 + os1;
      AllDenoteConcat(BlocksFor(rules[0]).value, AllBlocks(rules[1..]).value, f, os0, os1);
    }
  }

  // ---------------------------------------------------------------- the linked program

  /** The code of block b occurs in the program at start. */
  ghost predicate Placed(prog: seq<Instruction>, b: Block, start: nat, accept: nat, next: nat) {
    && start + |b| <= |prog|
    && forall j :: 0 <= j < |b| ==> LinkOne(b[j], start + j, start, accept, next) == Ok(prog[start + j])
  }

  lemma {:induction false} LinkBlockPlaces(b: Block, j: nat, start: nat, accept: nat, next: nat)
    requires j <= |b| && LinkBlock(b, j, start, accept, next).Ok?
    ensures var body := LinkBlock(b, j, start, accept, next).value;
            && |body| == |b| - j
            && forall m :: j <= m < |b| ==> LinkOne(b[m], start + m, start, accept, next) == Ok(body[m - j])
    decreases |b| - j
  {
    if j < |b| {
      LinkBlockPlaces(b, j + 1, start, accept, next);
    }
  }

  /** Resolving the jumps of a block keeps what it does to a frame. */
  lemma {:induction false} BlockRuns(prog: seq<Instruction>, f: seq<byte>, b: Block, start: nat, accept: nat, next: nat, j: nat, r: Regs)
    returns (r': Regs)
    requires WellFormed(b) && j < |b| && Placed(prog, b, start, accept, next)
    ensures Exec(prog, f, Running(start + j, r)) ==
            match Eval(b, f, j, r)
            case Match => Exec(prog, f, Running(accept, r'))
            case NoMatch => Exec(prog, f, Running(next, r'))
            case Fault => Halted(0)
    decreases |b| - j
  {
    r' := r;
    var p := b[j];
    assert LinkOne(p, start + j, start, accept, next) == Ok(prog[start + j]);
    if IsLoad(p.code) {
      if Load(p.code, p.k, f, r).Some? {
        r' := BlockRuns(prog, f, b, start, accept, next, j + 1, Load(p.code, p.k, f, r).value);
      }
    } else {
      var t := if Taken(p.code, p.k, r) then p.jt else p.jf;
      if t >= 0 {
        r' := BlockRuns(prog, f, b, start, accept, next, t, r);
      }
    }
  }

  /** Linked code is the first block's code followed by the linked rest. */
  lemma LinkedSplit(prog: seq<Instruction>, blocks: seq<Block>, start: nat, total: nat)
    requires blocks != [] && start <= |prog|
    requires LinkFrom(blocks, start, total) == Ok(prog[start..])
    ensures Placed(prog, blocks[0], start, total, NextStart(blocks, start, total))
    ensures LinkFrom(blocks[1..], start + |blocks[0]|, total) == Ok(prog[start + |blocks[0]|..])
  {
    var b, next := blocks[0], NextStart(blocks, start, total);
    LinkBlockPlaces(b, 0, start, total, next);
    var body := LinkBlock(b, 0, start, total, next).value;
    var rest := LinkFrom(blocks[1..], start + |b|, total).value;
    var code := prog[start..];
    assert code == body + rest && |body| == |b|;
    assert prog[start + |b|..] == code[|b|..] == rest;
    assert forall j :: 0 <= j < |b| ==> prog[start + j] == code[j] == body[j];
  }

  /** The two returns close the program. */
  lemma {:induction false} LinkedTail(prog: seq<Instruction>, blocks: seq<Block>, start: nat, total: nat)
    requires start + Total(blocks) == total && |prog| == total + 2
    requires LinkFrom(blocks, start, total) == Ok(prog[start..])
    ensures prog[total] == Instruction(OP_RET_K, 0, 0, ACCEPT_LENGTH)
    ensures prog[total + 1] == Instruction(OP_RET_K, 0, 0, 0)
    decreases |blocks|
  {
    if blocks == [] {
      assert prog[total] == prog[start..][0] && prog[total + 1] == prog[start..][1];
    } else {
      LinkedSplit(prog, blocks, start, total);
      LinkedTail(prog, blocks[1..], start + |blocks[0]|, total);
    }
  }

  /** The whole linked code, from any block on. */
  lemma {:induction false} LinkedRuns(prog: seq<Instruction>, f: seq<byte>, blocks: seq<Block>, os: seq<Outcome>, start: nat, total: nat, r: Regs)
    requires AllDenote(blocks, f, os)
    requires start + Total(blocks) == total && |prog| == total + 2
    requires LinkFrom(blocks, start, total) == Ok(prog[start..])
    ensures Exec(prog, f, Running(if blocks == [] then total + 1 else start, r))
         == Halted(if Fold(os).Match? then ACCEPT_LENGTH else 0)
    decreases |blocks|
  {
    LinkedTail(prog, blocks, start, total);
    if blocks == [] {
      assert Step(prog, f, Running(total + 1, r)) == Halted(0);
    } else {
      var b := blocks[0];
      LinkedSplit(prog, blocks, start, total);
      assert Denotes(b, f, os[0]) && Eval(b, f, 0, r) == os[0];
      var r' := BlockRuns(prog, f, b, start, total, NextStart(blocks, start, total), 0, r);
      assert Step(prog, f, Running(total, r')) == Halted(ACCEPT_LENGTH);
      LinkedRuns(prog, f, blocks[1..], os[1..], start + |b|, total, r');
    }
  }

  lemma {:induction false} LinkedLength(blocks: seq<Block>, start: nat, total: nat)
    requires LinkFrom(blocks, start, total).Ok?
    ensures |LinkFrom(blocks, start, total).value| == Total(blocks) + 2
    decreases |blocks|
  {
    if blocks == [] {
    } else {
      LinkBlockPlaces(blocks[0], 0, start, total, NextStart(blocks, start, total));
      LinkedLength(blocks[1..], start + |blocks[0]|, total);
    }
  }

  /**
    Compiler correctness: an assembled program accepts a frame exactly when the rules, tried in
    order, reach a match before a load runs past the end of the frame; otherwise it returns 0.
   */
  lemma AssembledVerdict(rules: seq<Rule>, f: seq<byte>)
    requires Assembled(rules).Ok?
    ensures Verdict(Assembled(rules).value, f) == Halted(if Accepts(rules, f) then ACCEPT_LENGTH else 0)
  {
    var prog := Assembled(rules).value;
    if rules != [] {
      var blocks := AllBlocks(rules).value;
      var os := AllBlocksDenote(rules, f);
      LinkedLength(blocks, 0, Total(blocks));
      assert prog[0..] == prog;
      assert blocks != [] by {
        assert BlocksFor(rules[0]).Ok?;
      }
      LinkedRuns(prog, f, blocks, os, 0, Total(blocks), START.regs);
    } else {
      assert Step(prog, f, START) == Halted(ACCEPT_LENGTH);
    }
  }

  // ---------------------------------------------------------------- rule order

  predicate AnyOutcome(rules: seq<Rule>, f: seq<byte>, o: Outcome) {
    exists r :: r in rules && RuleMeaning(r, f) == o
  }

  /** Without a fault, the rules are a disjunction. */
  lemma {:induction false} FaultFreeMeaning(rules: seq<Rule>, f: seq<byte>)
    requires !AnyOutcome(rules, f, Fault)
    ensures RulesMeaning(rules, f).Match? <==> AnyOutcome(rules, f, Match)
  {
    if rules == [] {
    } else {
      assert forall r :: r in rules <==> r == rules[0] || r in rules[1..];
      FaultFreeMeaning(rules[1..], f);
    }
  }

  lemma {:induction false} MatchlessMeaning(rules: seq<Rule>, f: seq<byte>)
    requires !AnyOutcome(rules, f, Match)
    ensures !RulesMeaning(rules, f).Match?
  {
    if rules == [] {
    } else {
      assert rules[0] in rules;
      assert forall r :: r in rules[1..] ==> r in rules;
      MatchlessMeaning(rules[1..], f);
    }
  }

  /** The rules with one of them moved to the front. */
  lemma ToFront(rules: seq<Rule>, r: Rule) returns (p: seq<Rule>)
    requires r in rules
    ensures multiset(p) == multiset(rules) && p != [] && p[0] == r
  {
    var i :| 0 <= i < |rules| && rules[i] == r;
    p := [r] + (rules[..i] + rules[i + 1..]);
    assert rules == rules[..i] + ([r] + rules[i + 1..]);
  }

  /** Every order of the rules gives the frame the same verdict. */
  ghost predicate OrderFree(rules: seq<Rule>, f: seq<byte>) {
    forall p, q :: multiset(p) == multiset(rules) && multiset(q) == multiset(rules) ==> Accepts(p, f) == Accepts(q, f)
  }

  lemma SameMembers(p: seq<Rule>, rules: seq<Rule>)
    requires multiset(p) == multiset(rules)
    ensures |p| == |rules| && forall r :: r in p <==> r in rules
  {
    assert |multiset(p)| == |p| && |multiset(rules)| == |rules|;
    assert forall r :: r in p <==> r in multiset(p);
  }

  /**
    The rules given to the assembler can be put in any order, as far as a frame is concerned, exactly
    when the frame does not make one rule match and another fault.
   */
  lemma OrderMattersIffMatchAndFault(rules: seq<Rule>, f: seq<byte>)
    ensures OrderFree(rules, f) <==> !(AnyOutcome(rules, f, Match) && AnyOutcome(rules, f, Fault))
  {
    if AnyOutcome(rules, f, Match) && AnyOutcome(rules, f, Fault) {
      var m :| m in rules && RuleMeaning(m, f) == Match;
      var x :| x in rules && RuleMeaning(x, f) == Fault;
      var p := ToFront(rules, m);
      var q := ToFront(rules, x);
      assert Accepts(p, f) && !Accepts(q, f);
    } else {
      forall p, q | multiset(p) == multiset(rules) && multiset(q) == multiset(rules)
        ensures Accepts(p, f) == Accepts(q, f)
      {
        SameMembers(p, rules);
        SameMembers(q, rules);
        if AnyOutcome(rules, f, Fault) {
          MatchlessMeaning(p, f);
          MatchlessMeaning(q, f);
        } else {
          FaultFreeMeaning(p, f);
          FaultFreeMeaning(q, f);
        }
      }
    }
  }

  /** On a frame where no rule faults, the program accepts exactly when some rule matches. */
  lemma FaultFreeVerdict(rules: seq<Rule>, f: seq<byte>)
    requires rules != [] && Assembled(rules).Ok? && !AnyOutcome(rules, f, Fault)
    ensures Verdict(Assembled(rules).value, f)
         == Halted(if AnyOutcome(rules, f, Match) then ACCEPT_LENGTH else 0)
  {
    AssembledVerdict(rules, f);
    FaultFreeMeaning(rules, f);
  }
}
